/** Rebuilding a region file in memory (region.py: `write`, `copy_chunks`,
    `read_chunks_to_copy`). Both writers walk the 1024 slots with z as the
    outer index, append each chunk's sectors to the chunk area, record its
    location in a fresh header and emit a zero timestamp table. The layout
    both produce is one function, Assemble, of what each slot contributes;
    the two writers differ only in where a slot's bytes come from. */
module RegionWrite {
  import opened Bytes
  import opened Errors
  import opened RegionFile

  /** A value of `chunks_to_update`: the integer 0 (the chunk is dropped) or
      the chunk's new bytes. */
  datatype Update = Dropped | Replacement(bytes: seq<byte>)

  /** What one slot contributes to the new file: the bytes appended to the
      chunk area and the sector count recorded in its header entry. */
  datatype Slot = Slot(bytes: seq<byte>, sectors: nat)
  {
    /** The bytes fill exactly the sectors recorded for them. */
    predicate Aligned() { |bytes| == SectorSize * sectors }
  }

  /** The state of the walk: the chunk area so far, the next free sector
      (`sector_offset`) and the location recorded for each slot so far. */
  datatype Layout = Layout(chunks: seq<byte>, next: nat, locs: seq<Location>)

  /** `math.ceil(n / 4096)`: the number of sectors n bytes occupy. */
  function CeilSectors(n: nat): (r: nat)
    ensures SectorSize * r >= n
    ensures r > 0 ==> SectorSize * (r - 1) < n
  {
    (n + SectorSize - 1) / SectorSize
  }

  /** `data[off * 4096 : off * 4096 + sectors * 4096]`. */
  function SectorRange(data: seq<byte>, loc: Location): seq<byte>
  {
    Slice(data, loc.offset * SectorSize, loc.offset * SectorSize + loc.sectors * SectorSize)
  }

  /** A slot copied unchanged from the file content `data`: nothing for a
      chunk not generated, else the sector range its location names. */
  function Kept(data: seq<byte>, loc: Location): Slot
  {
    if loc == NotGenerated then Slot([], 0) else Slot(SectorRange(data, loc), loc.sectors)
  }

  /** A location whose fields fit the 3-byte offset and 1-byte count. */
  predicate Fits(loc: Location)
  {
    loc.offset < Pow256(3) && loc.sectors < 256
  }

  /** The 4-byte header entry for a location: `bytes(4)` for an empty slot,
      else `offset.to_bytes(3, "big") + sectors.to_bytes(1, "big")`. */
  function EncodeLocation(loc: Location): (r: seq<byte>)
    ensures |r| == 4
  {
    if loc.sectors == 0 then Zeros(4) else ToBigEndian(loc.offset, 3) + ToBigEndian(loc.sectors, 1)
  }

  /** The location header: the entries of the slots, in slot order. */
  function HeaderBytes(locs: seq<Location>): (r: seq<byte>)
    ensures |r| == 4 * |locs|
  {
    if locs == [] then [] else HeaderBytes(locs[..|locs| - 1]) + EncodeLocation(locs[|locs| - 1])
  }

  /** The location recorded for a slot: "not generated" when it has no
      sectors, else the sectors starting at the next free sector. */
  function Recorded(offset: nat, sectors: nat): Location
  {
    if sectors == 0 then NotGenerated else Location(offset, sectors)
  }

  /** Total sector count of a list of locations. */
  function SumSectors(locs: seq<Location>): nat
  {
    if locs == [] then 0 else SumSectors(locs[..|locs| - 1]) + locs[|locs| - 1].sectors
  }

  /** One iteration of the walk. Encoding the entry of a non-empty slot
      overflows when its offset or sector count does not fit. */
  function Step(l: Layout, slot: Result<Slot>): Result<Layout>
  {
    match slot
    case Err(e) => Err(e)
    case Ok(s) =>
      if s.sectors != 0 && (l.next >= Pow256(3) || s.sectors >= 256) then Err(OverflowError)
      else Ok(Layout(l.chunks + s.bytes, l.next + s.sectors, l.locs + [Recorded(l.next, s.sectors)]))
  }

  /** The walk over the first k slots; the first failure is final. */
  function WalkTo(slots: seq<Result<Slot>>, k: nat): Result<Layout>
    requires k <= |slots|
  {
    if k == 0 then Ok(Layout([], 2, []))
    else
      match WalkTo(slots, k - 1)
      case Err(e) => Err(e)
      case Ok(l) => Step(l, slots[k - 1])
  }

  /** The walk over all slots. */
  function Walk(slots: seq<Result<Slot>>): Result<Layout>
  {
    WalkTo(slots, |slots|)
  }

  /** The file both writers produce: location header, 4096 zero timestamp
      bytes and the chunk area, subject to the final length assertion. */
  function Assemble(slots: seq<Result<Slot>>): Result<seq<byte>>
  {
    match Walk(slots)
    case Err(e) => Err(e)
    case Ok(l) =>
      var final := HeaderBytes(l.locs) + Zeros(SectorSize) + l.chunks;
      if |final| % SectorSize != 0 then Err(AssertionFailed) else Ok(final)
  }

  // ---------------------------------------------------------------------
  // Properties of the layout

  /** Appending a location appends its entry to the header. */
  lemma HeaderBytesSnoc(locs: seq<Location>, loc: Location)
    ensures HeaderBytes(locs + [loc]) == HeaderBytes(locs) + EncodeLocation(loc)
  {
    assert (locs + [loc])[..|locs|] == locs;
  }

  /** Once the walk failed it stays failed with the same error. */
  lemma {:induction false} WalkErrorSticks(slots: seq<Result<Slot>>, j: nat, m: nat)
    requires j <= m <= |slots| && WalkTo(slots, j).Err?
    ensures WalkTo(slots, m) == WalkTo(slots, j)
  {
    if m > j {
      WalkErrorSticks(slots, j, m - 1);
    }
  }

  /** A successful walk over k slots recorded one location per slot, every
      slot was readable, and the next free sector is 2 plus the sectors
      recorded. */
  lemma {:induction false} WalkShape(slots: seq<Result<Slot>>, k: nat)
    requires k <= |slots| && WalkTo(slots, k).Ok?
    ensures var l := WalkTo(slots, k).value;
            && |l.locs| == k
            && l.next == 2 + SumSectors(l.locs)
            && (forall j :: 0 <= j < k ==> slots[j].Ok?)
  {
    if k > 0 {
      WalkShape(slots, k - 1);
      var l := WalkTo(slots, k).value;
      assert l.locs[..k - 1] == WalkTo(slots, k - 1).value.locs;
    }
  }

  /** A successful walk extends the walk of every shorter prefix. */
  lemma {:induction false} WalkExtends(slots: seq<Result<Slot>>, j: nat, k: nat)
    requires j <= k <= |slots| && WalkTo(slots, k).Ok?
    ensures WalkTo(slots, j).Ok?
    ensures var a, b := WalkTo(slots, j).value, WalkTo(slots, k).value;
            && |a.chunks| <= |b.chunks| && b.chunks[..|a.chunks|] == a.chunks
            && |a.locs| <= |b.locs| && b.locs[..|a.locs|] == a.locs
  {
    if j < k {
      WalkExtends(slots, j, k - 1);
      var a, p, b := WalkTo(slots, j).value, WalkTo(slots, k - 1).value, WalkTo(slots, k).value;
      assert b.chunks[..|p.chunks|] == p.chunks;
      assert b.locs[..|p.locs|] == p.locs;
      assert b.chunks[..|a.chunks|] == p.chunks[..|a.chunks|];
      assert b.locs[..|a.locs|] == p.locs[..|a.locs|];
    }
  }

  /** Slot j is recorded at 2 plus the sectors recorded for the slots before
      it, with its own sector count, or as "not generated" when it has no
      sectors. */
  lemma WalkRecorded(slots: seq<Result<Slot>>, j: nat)
    requires j < |slots| && Walk(slots).Ok?
    ensures slots[j].Ok? && |Walk(slots).value.locs| == |slots|
    ensures var l := Walk(slots).value;
            l.locs[j] == Recorded(2 + SumSectors(l.locs[..j]), slots[j].value.sectors)
  {
    WalkShape(slots, |slots|);
    WalkExtends(slots, j + 1, |slots|);
    WalkShape(slots, j);
    var l, p, q := Walk(slots).value, WalkTo(slots, j).value, WalkTo(slots, j + 1).value;
    assert l.locs[..j + 1] == q.locs;
    assert l.locs[j] == q.locs[j];
    assert l.locs[..j] == q.locs[..j];
    assert q.locs[..j] == p.locs;
  }

  /** Every location a successful walk records fits its header entry. */
  lemma {:induction false} WalkFits(slots: seq<Result<Slot>>, k: nat, j: nat)
    requires k <= |slots| && WalkTo(slots, k).Ok? && j < |WalkTo(slots, k).value.locs|
    ensures Fits(WalkTo(slots, k).value.locs[j])
  {
    var p := WalkTo(slots, k - 1).value;
    if j < |p.locs| {
      WalkFits(slots, k - 1, j);
      assert WalkTo(slots, k).value.locs[j] == p.locs[j];
    }
  }

  /** Every recorded sector count fits in a byte, so the next free sector
      grows by at most 255 per slot. */
  lemma {:induction false} WalkNextBound(slots: seq<Result<Slot>>, k: nat)
    requires k <= |slots| && WalkTo(slots, k).Ok?
    ensures WalkTo(slots, k).value.next <= 2 + 255 * k
  {
    if k > 0 {
      WalkNextBound(slots, k - 1);
    }
  }

  /** Within 1024 slots the 3-byte offset never overflows: the walk fails at
      a readable slot exactly when that slot needs more than 255 sectors. */
  lemma StepFailsOnlyOnSectorCount(slots: seq<Result<Slot>>, k: nat)
    requires k < |slots| && k < SlotCount
    requires WalkTo(slots, k).Ok? && slots[k].Ok?
    ensures WalkTo(slots, k + 1).Err? <==> slots[k].value.sectors >= 256
  {
    WalkNextBound(slots, k);
    assert 2 + 255 * k < Pow256(3);
  }

  /** The walk over at most 1024 readable slots fails exactly when some
      slot needs more than 255 sectors. */
  lemma {:induction false} WalkSucceeds(slots: seq<Result<Slot>>, k: nat)
    requires k <= |slots| && k <= SlotCount
    requires forall j :: 0 <= j < k ==> slots[j].Ok?
    ensures WalkTo(slots, k).Ok? <==> forall j :: 0 <= j < k ==> slots[j].value.sectors < 256
  {
    if k > 0 {
      WalkSucceeds(slots, k - 1);
      if WalkTo(slots, k - 1).Ok? {
        StepFailsOnlyOnSectorCount(slots, k - 1);
      }
    }
  }

  /** With aligned slots the chunk area holds exactly the recorded sectors. */
  lemma {:induction false} WalkChunksAligned(slots: seq<Result<Slot>>, k: nat)
    requires k <= |slots| && WalkTo(slots, k).Ok?
    requires forall j :: 0 <= j < k ==> slots[j].Ok? && slots[j].value.Aligned()
    ensures |WalkTo(slots, k).value.chunks| == SectorSize * SumSectors(WalkTo(slots, k).value.locs)
  {
    if k > 0 {
      WalkChunksAligned(slots, k - 1);
      var l := WalkTo(slots, k).value;
      assert l.locs[..|l.locs| - 1] == WalkTo(slots, k - 1).value.locs;
    }
  }

  /** The chunk area of a walk over aligned slots spans exactly the sectors
      after the two header sectors. */
  lemma PrefixAlignedChunks(slots: seq<Result<Slot>>, k: nat)
    requires k <= |slots| && WalkTo(slots, k).Ok?
    requires forall j :: 0 <= j < k ==> slots[j].Ok? && slots[j].value.Aligned()
    ensures |WalkTo(slots, k).value.chunks| == SectorSize * (WalkTo(slots, k).value.next - 2)
  {
    WalkShape(slots, k);
    WalkChunksAligned(slots, k);
  }

  /** One step of the walk: slot k extends the layout of the first k slots
      by its bytes, its sectors and its recorded location. */
  lemma WalkStep(slots: seq<Result<Slot>>, k: nat)
    requires k < |slots| && WalkTo(slots, k + 1).Ok?
    ensures WalkTo(slots, k).Ok? && slots[k].Ok?
    ensures var p, q, s := WalkTo(slots, k).value, WalkTo(slots, k + 1).value, slots[k].value;
            && q.chunks == p.chunks + s.bytes
            && q.next == p.next + s.sectors
            && q.locs == p.locs + [Recorded(p.next, s.sectors)]
  {
  }

  /** Slot k's location inside a successful walk: recorded at the next free
      sector of the walk before it. */
  lemma WalkSlotLocation(slots: seq<Result<Slot>>, k: nat)
    requires k < |slots| && Walk(slots).Ok?
    ensures WalkTo(slots, k).Ok? && slots[k].Ok? && |Walk(slots).value.locs| == |slots|
    ensures Walk(slots).value.locs[k] == Recorded(WalkTo(slots, k).value.next, slots[k].value.sectors)
  {
    WalkShape(slots, |slots|);
    WalkExtends(slots, k + 1, |slots|);
    WalkStep(slots, k);
    WalkShape(slots, k);
    var l, q := Walk(slots).value, WalkTo(slots, k + 1).value;
    assert l.locs[k] == q.locs[k] by { assert l.locs[..k + 1] == q.locs; }
  }

  /** Slot k's bytes inside a successful walk: they follow the chunk area of
      the walk before it. */
  lemma WalkSlotBytes(slots: seq<Result<Slot>>, k: nat)
    requires k < |slots| && Walk(slots).Ok?
    ensures WalkTo(slots, k).Ok? && slots[k].Ok?
    ensures var p, l, s := WalkTo(slots, k).value, Walk(slots).value, slots[k].value;
            && |p.chunks| + |s.bytes| <= |l.chunks|
            && l.chunks[|p.chunks|..|p.chunks| + |s.bytes|] == s.bytes
  {
    WalkExtends(slots, k + 1, |slots|);
    WalkStep(slots, k);
    var l, p, q := Walk(slots).value, WalkTo(slots, k).value, WalkTo(slots, k + 1).value;
    var s := slots[k].value;
    ConcatRight(p.chunks, s.bytes);
    PrefixWindow(l.chunks, q.chunks, |p.chunks|, |s.bytes|);
  }

  /** The header holds each location's entry at four times its slot index. */
  lemma {:induction false} HeaderBytesAt(locs: seq<Location>, k: nat)
    requires k < |locs|
    ensures HeaderBytes(locs)[4 * k..4 * k + 4] == EncodeLocation(locs[k])
  {
    var init := locs[..|locs| - 1];
    if k == |locs| - 1 {
      ConcatRight(HeaderBytes(init), EncodeLocation(locs[k]));
    } else {
      HeaderBytesAt(init, k);
      WindowOfPrefix(HeaderBytes(init), EncodeLocation(locs[|locs| - 1]), HeaderBytes(init), 4 * k, 4);
    }
  }

  /** A header entry reads back as the location it encodes (an entry with no
      sectors is four zero bytes and reads as "not generated"). */
  lemma EncodedReadsBack(data: seq<byte>, cx: int, cz: int, loc: Location)
    requires Fits(loc) && (loc.sectors == 0 ==> loc == NotGenerated)
    requires HeaderOffset(cx, cz) + 4 <= |data|
    requires data[HeaderOffset(cx, cz)..HeaderOffset(cx, cz) + 4] == EncodeLocation(loc)
    ensures ChunkLocation(data, cx, cz) == Ok(loc)
  {
    if loc.sectors == 0 {
      ChunkLocationOfZeros(data, cx, cz);
    } else {
      assert ToBigEndian(loc.sectors, 1) == [loc.sectors];
      ChunkLocationOfEntry(data, cx, cz, loc.offset, loc.sectors);
    }
  }

  /** What a successful Assemble is made of. */
  lemma AssembleParts(slots: seq<Result<Slot>>, final: seq<byte>)
    requires Assemble(slots) == Ok(final)
    ensures Walk(slots).Ok?
    ensures final == HeaderBytes(Walk(slots).value.locs) + Zeros(SectorSize) + Walk(slots).value.chunks
    ensures |final| % SectorSize == 0
  {
  }

  /** Round trip of the layout: reading the header of the assembled file
      gives, for every local chunk, the location recorded for its slot. That
      location is "not generated" for a slot with no sectors, and otherwise
      carries the slot's sector count at an offset of 2 plus the sectors of
      all earlier slots. The timestamp table is all zeros. */
  lemma AssembleLocations(slots: seq<Result<Slot>>, final: seq<byte>, cx: int, cz: int)
    requires |slots| == SlotCount && 0 <= cx < 32 && 0 <= cz < 32
    requires Assemble(slots) == Ok(final)
    ensures slots[cx + 32 * cz].Ok? && |Walk(slots).value.locs| == SlotCount
    ensures var l := Walk(slots).value;
            && ChunkLocation(final, cx, cz) == Ok(l.locs[cx + 32 * cz])
            && l.locs[cx + 32 * cz] == Recorded(2 + SumSectors(l.locs[..cx + 32 * cz]), slots[cx + 32 * cz].value.sectors)
  {
    var k := cx + 32 * cz;
    AssembleParts(slots, final);
    WalkShape(slots, |slots|);
    WalkRecorded(slots, k);
    var l := Walk(slots).value;
    WalkFits(slots, |slots|, k);
    HeaderReadsBack(l.locs, Zeros(SectorSize) + l.chunks, cx, cz);
    ConcatAssoc(HeaderBytes(l.locs), Zeros(SectorSize), l.chunks);
  }

  /** The assembled file is whole sectors, at least the two header sectors,
      and its timestamp table is all zeros. */
  lemma AssembleShape(slots: seq<Result<Slot>>, final: seq<byte>)
    requires |slots| == SlotCount && Assemble(slots) == Ok(final)
    ensures |final| >= 2 * SectorSize && |final| % SectorSize == 0
    ensures forall i :: SectorSize <= i < 2 * SectorSize ==> final[i] == 0
  {
    AssembleParts(slots, final);
    WalkShape(slots, |slots|);
    TimestampsZero(HeaderBytes(Walk(slots).value.locs), Walk(slots).value.chunks);
  }

  /** Reading a header made of recorded locations, followed by anything,
      gives back the location of each local chunk. */
  lemma HeaderReadsBack(locs: seq<Location>, rest: seq<byte>, cx: int, cz: int)
    requires |locs| == SlotCount && 0 <= cx < 32 && 0 <= cz < 32
    requires Fits(locs[cx + 32 * cz])
    requires locs[cx + 32 * cz].sectors == 0 ==> locs[cx + 32 * cz] == NotGenerated
    ensures ChunkLocation(HeaderBytes(locs) + rest, cx, cz) == Ok(locs[cx + 32 * cz])
  {
    var k := cx + 32 * cz;
    var h := HeaderBytes(locs);
    HeaderBytesAt(locs, k);
    WindowOfPrefix(h, rest, h, 4 * k, 4);
    HeaderOffsetLocal(cx, cz);
    EncodedReadsBack(h + rest, cx, cz, locs[k]);
  }

  /** The 4096 bytes after a 4096-byte header are the zero timestamps. */
  lemma TimestampsZero(header: seq<byte>, chunks: seq<byte>)
    requires |header| == SectorSize
    ensures forall i :: SectorSize <= i < 2 * SectorSize ==> (header + Zeros(SectorSize) + chunks)[i] == 0
  {
    var f := header + Zeros(SectorSize) + chunks;
    forall i | SectorSize <= i < 2 * SectorSize ensures f[i] == 0 {
      assert f[i] == Zeros(SectorSize)[i - SectorSize];
    }
  }

  /** With every slot aligned, the sector range a recorded location names in
      the assembled file is exactly the bytes the slot contributed. */
  lemma AssembleChunkBytes(slots: seq<Result<Slot>>, final: seq<byte>, k: nat)
    requires |slots| == SlotCount && k < SlotCount
    requires Assemble(slots) == Ok(final)
    requires forall j :: 0 <= j < SlotCount ==> slots[j].Ok? && slots[j].value.Aligned()
    ensures |Walk(slots).value.locs| == SlotCount
    ensures var loc := Walk(slots).value.locs[k];
            && loc.offset * SectorSize + |slots[k].value.bytes| <= |final|
            && final[loc.offset * SectorSize..loc.offset * SectorSize + |slots[k].value.bytes|] == slots[k].value.bytes
  {
    AssembleParts(slots, final);
    WalkShape(slots, |slots|);
    WalkSlotLocation(slots, k);
    WalkSlotBytes(slots, k);
    PrefixAlignedChunks(slots, k);
    var l, p, s := Walk(slots).value, WalkTo(slots, k).value, slots[k].value;
    var front := HeaderBytes(l.locs) + Zeros(SectorSize);
    SuffixWindow(front, l.chunks, |p.chunks|, |s.bytes|);
    if s.sectors > 0 {
      assert l.locs[k].offset * SectorSize == |front| + |p.chunks|;
    } else {
      assert s.bytes == [];
    }
  }

  /** With every slot aligned the final length assertion always holds: the
      file is the 2 header sectors plus the recorded sectors. */
  lemma AssembleAligned(slots: seq<Result<Slot>>)
    requires |slots| == SlotCount && Walk(slots).Ok?
    requires forall j :: 0 <= j < SlotCount ==> slots[j].Ok? && slots[j].value.Aligned()
    ensures Assemble(slots).Ok?
    ensures |Assemble(slots).value| == SectorSize * (2 + SumSectors(Walk(slots).value.locs))
  {
    WalkShape(slots, |slots|);
    WalkChunksAligned(slots, |slots|);
  }

  // ---------------------------------------------------------------------
  // Reading the assembled file back

  /** The sector count the header of `data` gives slot j, the last byte of
      its entry; 0 when the header is too short to hold it. */
  function SectorsAt(data: seq<byte>, j: nat): nat
  {
    if |data| <= 4 * j + 3 then 0 else data[4 * j + 3]
  }

  /** For a local chunk that count is the one `chunk_location` reads. */
  lemma SectorsAtSlot(data: seq<byte>, j: nat)
    requires j < SlotCount && ChunkLocation(data, j % 32, j / 32).Ok?
    ensures SectorsAt(data, j) == ChunkLocation(data, j % 32, j / 32).value.sectors
  {
    HeaderOffsetOfSlot(j);
  }

  /** The sectors the header of `data` gives the slots before slot k. */
  function SectorsBefore(data: seq<byte>, k: nat): nat
  {
    if k == 0 then 0 else SectorsBefore(data, k - 1) + SectorsAt(data, k - 1)
  }

  /** The sector counts read back from the assembled header add up to the
      sectors recorded by the walk. */
  lemma {:induction false} AssemblePacked(slots: seq<Result<Slot>>, final: seq<byte>, k: nat)
    requires |slots| == SlotCount && k <= SlotCount && Assemble(slots) == Ok(final)
    ensures Walk(slots).Ok? && |Walk(slots).value.locs| == SlotCount
    ensures SectorsBefore(final, k) == SumSectors(Walk(slots).value.locs[..k])
  {
    AssembleParts(slots, final);
    WalkShape(slots, |slots|);
    if k > 0 {
      var j := k - 1;
      AssemblePacked(slots, final, j);
      AssembleLocations(slots, final, j % 32, j / 32);
      SectorsAtSlot(final, j);
      var l := Walk(slots).value;
      assert l.locs[..k][..j] == l.locs[..j];
    }
  }

  /** Where slot cx + 32 * cz of the plan lands in the assembled file: the
      header gives its own sector count, "not generated" exactly when it has
      none, and otherwise a start right after the two header sectors and the
      sectors the header gives all earlier slots. */
  lemma AssembleSlot(slots: seq<Result<Slot>>, final: seq<byte>, cx: int, cz: int)
    requires |slots| == SlotCount && 0 <= cx < 32 && 0 <= cz < 32
    requires Assemble(slots) == Ok(final)
    ensures |final| >= 2 * SectorSize && |final| % SectorSize == 0
    ensures forall i :: SectorSize <= i < 2 * SectorSize ==> final[i] == 0
    ensures slots[cx + 32 * cz].Ok? && ChunkLocation(final, cx, cz).Ok?
    ensures var s, loc := slots[cx + 32 * cz].value, ChunkLocation(final, cx, cz).value;
            && loc.sectors == s.sectors
            && (loc.sectors == 0 <==> loc == NotGenerated)
            && (loc != NotGenerated ==> loc.offset == 2 + SectorsBefore(final, cx + 32 * cz))
  {
    AssembleShape(slots, final);
    AssembleRecorded(slots, final, cx, cz);
  }

  /** The header entry of slot cx + 32 * cz, placed after the sectors the
      header gives the earlier slots. */
  lemma AssembleRecorded(slots: seq<Result<Slot>>, final: seq<byte>, cx: int, cz: int)
    requires |slots| == SlotCount && 0 <= cx < 32 && 0 <= cz < 32
    requires Assemble(slots) == Ok(final)
    ensures slots[cx + 32 * cz].Ok?
    ensures ChunkLocation(final, cx, cz) == Ok(Recorded(2 + SectorsBefore(final, cx + 32 * cz), slots[cx + 32 * cz].value.sectors))
  {
    AssembleLocations(slots, final, cx, cz);
    AssemblePacked(slots, final, cx + 32 * cz);
  }

  /** With every slot aligned, the sector range the header of the assembled
      file names for a chunk holds exactly the bytes its slot contributed. */
  lemma AssembleSlotBytes(slots: seq<Result<Slot>>, final: seq<byte>, cx: int, cz: int)
    requires |slots| == SlotCount && 0 <= cx < 32 && 0 <= cz < 32
    requires Assemble(slots) == Ok(final)
    requires forall j :: 0 <= j < SlotCount ==> slots[j].Ok? && slots[j].value.Aligned()
    ensures ChunkLocation(final, cx, cz).Ok?
    ensures SectorRange(final, ChunkLocation(final, cx, cz).value) == slots[cx + 32 * cz].value.bytes
  {
    var k := cx + 32 * cz;
    AssembleLocations(slots, final, cx, cz);
    AssembleChunkBytes(slots, final, k);
    var loc := ChunkLocation(final, cx, cz).value;
    var s := slots[k].value;
    assert loc == Walk(slots).value.locs[k];
    if s.sectors == 0 {
      assert s.bytes == [];
    } else {
      assert |s.bytes| == loc.sectors * SectorSize;
    }
  }
}
