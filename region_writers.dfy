/** The two writers of region.py and the reader of copy sources. Each
    writer is a loop over the 1024 slots, z outer and x inner, proved to
    produce exactly RegionWrite.Assemble of its per-slot plan; the file
    they would write is returned instead of written. */
module RegionWriters {
  import opened Bytes
  import opened Errors
  import opened RegionFile
  import opened RegionWrite

  // ---------------------------------------------------------------------
  // write

  /** What slot (cx, cz) contributes to `write`: its location is read first
      (IndexError on a short header); a slot not being updated keeps its old
      sectors; an update with 0 drops the chunk; new bytes take
      `ceil(len / 4096)` sectors. */
  function WriteSlot(data: seq<byte>, updates: map<(int, int), Update>, cx: int, cz: int): Result<Slot>
  {
    match ChunkLocation(data, cx, cz)
    case Err(e) => Err(e)
    case Ok(loc) =>
      if (cx, cz) !in updates then Ok(Kept(data, loc))
      else
        match updates[(cx, cz)]
        case Dropped => Ok(Slot([], 0))
        case Replacement(b) => Ok(Slot(b, CeilSectors(|b|)))
  }

  lemma SlotCoordinates(cx: int, cz: int)
    requires 0 <= cx < 32 && 0 <= cz < 32
    ensures (cx + 32 * cz) % 32 == cx && (cx + 32 * cz) / 32 == cz
  {
  }

  /** The plan of `write` for all slots, in z-major order. */
  function WriteSlots(data: seq<byte>, updates: map<(int, int), Update>): (slots: seq<Result<Slot>>)
    ensures |slots| == SlotCount
  {
    seq(SlotCount, k requires 0 <= k < SlotCount => WriteSlot(data, updates, k % 32, k / 32))
  }

  /** Slot `cx + 32 * cz` of the plan is the one of chunk (cx, cz). */
  lemma WriteSlotsAt(data: seq<byte>, updates: map<(int, int), Update>, cx: int, cz: int)
    requires 0 <= cx < 32 && 0 <= cz < 32
    ensures WriteSlots(data, updates)[cx + 32 * cz] == WriteSlot(data, updates, cx, cz)
  {
    SlotCoordinates(cx, cz);
  }

  /** A slot the walk accepts extends the layout by its bytes, its sectors
      and its recorded location, and the header by that location's entry.
      (Stated field by field: equality of whole layouts is extensional on
      their sequences and much harder for the solver.) */
  lemma AdvanceWalk(slots: seq<Result<Slot>>, k: nat)
    requires k < |slots| && WalkTo(slots, k).Ok? && slots[k].Ok?
    requires slots[k].value.sectors == 0 || (WalkTo(slots, k).value.next < Pow256(3) && slots[k].value.sectors < 256)
    ensures var l, s := WalkTo(slots, k).value, slots[k].value;
            && WalkTo(slots, k + 1).Ok?
            && WalkTo(slots, k + 1).value.chunks == l.chunks + s.bytes
            && WalkTo(slots, k + 1).value.next == l.next + s.sectors
            && HeaderBytes(WalkTo(slots, k + 1).value.locs) == HeaderBytes(l.locs) + EncodeLocation(Recorded(l.next, s.sectors))
  {
    var l, s := WalkTo(slots, k).value, slots[k].value;
    HeaderBytesSnoc(l.locs, Recorded(l.next, s.sectors));
  }

  /** A slot whose sector count or start does not fit its entry fails the
      whole file with an overflow. */
  lemma OverflowAt(slots: seq<Result<Slot>>, k: nat)
    requires k < |slots| && WalkTo(slots, k).Ok? && slots[k].Ok?
    requires slots[k].value.sectors != 0 && (WalkTo(slots, k).value.next >= Pow256(3) || slots[k].value.sectors >= 256)
    ensures Assemble(slots) == Err(OverflowError)
  {
    WalkErrorSticks(slots, k + 1, |slots|);
  }

  /** A slot that fails fails the whole file with the same error. */
  lemma SlotFailsAt(slots: seq<Result<Slot>>, k: nat, e: Error)
    requires k < |slots| && WalkTo(slots, k).Ok? && slots[k] == Err(e)
    ensures Assemble(slots) == Err(e)
  {
    WalkErrorSticks(slots, k + 1, |slots|);
  }

  /** The header entry the writers append for a slot: four zero bytes for
      a slot with no sectors, else the 3-byte start and 1-byte count. */
  method LocationEntry(sectorOffset: nat, sectors: nat) returns (entry: seq<byte>)
    ensures entry == EncodeLocation(Recorded(sectorOffset, sectors))
  {
    if sectors == 0 {
      entry := Zeros(4);
    } else {
      entry := ToBigEndian(sectorOffset, 3) + ToBigEndian(sectors, 1);
    }
  }

  /** The part of the `write` loop that finds what slot (cx, cz) holds:
      its location (IndexError on a short header) and then either the old
      sector range, nothing, or the new bytes with their sector count. */
  method WriteSlotOf(data: seq<byte>, updates: map<(int, int), Update>, cx: int, cz: int) returns (r: Result<Slot>)
    ensures r == WriteSlot(data, updates, cx, cz)
  {
    var loc := ChunkLocation(data, cx, cz);
    if loc.Err? {
      return Err(loc.error);
    }
    var sectors := loc.value.sectors;
    var bytes: seq<byte> := [];
    if (cx, cz) !in updates {
      // use the existing data without change
      if loc.value != NotGenerated {
        var start := loc.value.offset * SectorSize;
        var end := start + sectors * SectorSize;
        bytes := Slice(data, start, end);
      } else {
        sectors := 0;
      }
    } else {
      var toAdd := updates[(cx, cz)];
      if toAdd.Replacement? {
        bytes := toAdd.bytes;
        sectors := CeilSectors(|toAdd.bytes|);
      } else {
        sectors := 0;
      }
    }
    return Ok(Slot(bytes, sectors));
  }

  /** `Region.write`: the bytes it would write to the region file, or the
      exception it raises. */
  method Write(data: seq<byte>, updates: map<(int, int), Update>) returns (r: Result<seq<byte>>)
    ensures r == Assemble(WriteSlots(data, updates))
  {
    ghost var slots := WriteSlots(data, updates);
    var header: seq<byte> := [];
    var timestamps := Zeros(SectorSize);
    var chunks: seq<byte> := [];
    var sectorOffset: nat := 2;
    var k := 0;
    while k < SlotCount
      invariant 0 <= k <= SlotCount
      invariant WalkTo(slots, k).Ok? && WalkTo(slots, k).value.chunks == chunks
      invariant WalkTo(slots, k).value.next == sectorOffset
      invariant header == HeaderBytes(WalkTo(slots, k).value.locs)
    {
      // slot k is chunk (x, z) = (k % 32, k / 32): z outer, x inner
      var cx, cz := k % 32, k / 32;
      WriteSlotsAt(data, updates, cx, cz);
      var slot := WriteSlotOf(data, updates, cx, cz);
      assert slot == slots[k];
      if slot.Err? {
        SlotFailsAt(slots, k, slot.error);
        return Err(slot.error);
      }
      var sectors := slot.value.sectors;
      if sectors != 0 && (sectorOffset >= Pow256(3) || sectors >= 256) {
        // `to_bytes` raises on a start or count too large for its entry
        OverflowAt(slots, k);
        return Err(OverflowError);
      }
      AdvanceWalk(slots, k);
      chunks := chunks + slot.value.bytes;
      var entry := LocationEntry(sectorOffset, sectors);
      header := header + entry;
      sectorOffset := sectorOffset + sectors;
      k := k + 1;
    }
    var final := header + timestamps + chunks;
    if |final| % SectorSize != 0 {
      return Err(AssertionFailed);
    }
    return Ok(final);
  }

  // ---------------------------------------------------------------------
  // copy_chunks and read_chunks_to_copy

  /** A value of `chunks_to_copy`: its `source_region` and `source_chunk`. */
  datatype CopySource = CopySource(region: (int, int), chunk: (int, int))

  /** The region files of a world folder, by region coordinates; a region
      with no entry has no file, and opening it raises FileNotFound. */
  type World = map<(int, int), seq<byte>>

  /** Chunk (cx, cz) of the region file content `data`, unchanged: its
      location is read (IndexError on a short header) and its old sector
      range taken. */
  function KeptAt(data: seq<byte>, cx: int, cz: int): (r: Result<Slot>)
    ensures r.Err? <==> ChunkLocation(data, cx, cz).Err?
    ensures r.Ok? ==> r.value == Kept(data, ChunkLocation(data, cx, cz).value)
  {
    match ChunkLocation(data, cx, cz)
    case Err(e) => Err(e)
    case Ok(loc) => Ok(Kept(data, loc))
  }

  /** What slot (cx, cz) contributes to `copy_chunks`: a slot being copied
      takes its source chunk's sector range from the source region's file;
      any other slot keeps its own. */
  function CopySlot(data: seq<byte>, copies: map<(int, int), CopySource>, world: World, cx: int, cz: int): Result<Slot>
  {
    if (cx, cz) in copies then
      var src := copies[(cx, cz)];
      if src.region !in world then Err(FileNotFound)
      else KeptAt(world[src.region], src.chunk.0, src.chunk.1)
    else KeptAt(data, cx, cz)
  }

  /** The plan of `copy_chunks` for all slots, in z-major order. */
  function CopySlots(data: seq<byte>, copies: map<(int, int), CopySource>, world: World): (slots: seq<Result<Slot>>)
    ensures |slots| == SlotCount
  {
    seq(SlotCount, k requires 0 <= k < SlotCount => CopySlot(data, copies, world, k % 32, k / 32))
  }

  /** Slot `cx + 32 * cz` of the plan is the one of chunk (cx, cz). */
  lemma CopySlotsAt(data: seq<byte>, copies: map<(int, int), CopySource>, world: World, cx: int, cz: int)
    requires 0 <= cx < 32 && 0 <= cz < 32
    ensures CopySlots(data, copies, world)[cx + 32 * cz] == CopySlot(data, copies, world, cx, cz)
  {
    SlotCoordinates(cx, cz);
  }

  /** The part of the `copy_chunks` loop that finds what slot (cx, cz)
      holds: the region and chunk to read from, that chunk's location, and
      its sector range, or nothing for a chunk not generated. */
  method CopySlotOf(data: seq<byte>, copies: map<(int, int), CopySource>, world: World, cx: int, cz: int)
    returns (r: Result<Slot>)
    ensures r == CopySlot(data, copies, world, cx, cz)
  {
    var source, x, z := data, cx, cz;
    if (cx, cz) in copies {
      var item := copies[(cx, cz)];
      if item.region !in world {
        return Err(FileNotFound);
      }
      source, x, z := world[item.region], item.chunk.0, item.chunk.1;
    }
    var loc := ChunkLocation(source, x, z);
    if loc.Err? {
      return Err(loc.error);
    }
    var sectors := loc.value.sectors;
    var bytes: seq<byte> := [];
    if loc.value != NotGenerated {
      var start := loc.value.offset * SectorSize;
      var end := start + sectors * SectorSize;
      bytes := Slice(source, start, end);
    } else {
      sectors := 0;
    }
    return Ok(Slot(bytes, sectors));
  }

  /** `Region.copy_chunks`: the bytes it would write to the region file, or
      the exception it raises. */
  method CopyChunks(data: seq<byte>, copies: map<(int, int), CopySource>, world: World) returns (r: Result<seq<byte>>)
    ensures r == Assemble(CopySlots(data, copies, world))
  {
    ghost var slots := CopySlots(data, copies, world);
    var header: seq<byte> := [];
    var timestamps := Zeros(SectorSize);
    var chunks: seq<byte> := [];
    var sectorOffset: nat := 2;
    var k := 0;
    while k < SlotCount
      invariant 0 <= k <= SlotCount
      invariant WalkTo(slots, k).Ok? && WalkTo(slots, k).value.chunks == chunks
      invariant WalkTo(slots, k).value.next == sectorOffset
      invariant header == HeaderBytes(WalkTo(slots, k).value.locs)
    {
      // slot k is chunk (x, z) = (k % 32, k / 32): z outer, x inner
      var cx, cz := k % 32, k / 32;
      CopySlotsAt(data, copies, world, cx, cz);
      var slot := CopySlotOf(data, copies, world, cx, cz);
      assert slot == slots[k];
      if slot.Err? {
        SlotFailsAt(slots, k, slot.error);
        return Err(slot.error);
      }
      var sectors := slot.value.sectors;
      if sectors != 0 && (sectorOffset >= Pow256(3) || sectors >= 256) {
        OverflowAt(slots, k);
        return Err(OverflowError);
      }
      AdvanceWalk(slots, k);
      chunks := chunks + slot.value.bytes;
      var entry := LocationEntry(sectorOffset, sectors);
      header := header + entry;
      sectorOffset := sectorOffset + sectors;
      k := k + 1;
    }
    var final := header + timestamps + chunks;
    if |final| % SectorSize != 0 {
      return Err(AssertionFailed);
    }
    return Ok(final);
  }

  /** The entry `read_chunks_to_copy` makes for one copy source: the
      source chunk's sector range, or the sentinel 0 (Dropped) when the
      chunk is not generated. */
  function CopyUpdate(world: World, src: CopySource): (r: Result<Update>)
    ensures r.Err? <==> src.region !in world || ChunkLocation(world[src.region], src.chunk.0, src.chunk.1).Err?
    ensures r.Ok? ==> var d := world[src.region];
                      var loc := ChunkLocation(d, src.chunk.0, src.chunk.1).value;
                      (r.value == Dropped <==> loc == NotGenerated)
                      && (r.value.Replacement? ==> r.value.bytes == SectorRange(d, loc))
  {
    if src.region !in world then Err(FileNotFound)
    else
      var d := world[src.region];
      match ChunkLocation(d, src.chunk.0, src.chunk.1)
      case Err(e) => Err(e)
      case Ok(loc) => if loc != NotGenerated then Ok(Replacement(SectorRange(d, loc))) else Ok(Dropped)
  }

  /** `Region.read_chunks_to_copy`: for every destination chunk the update
      its source gives, or the exception of a source that cannot be read.
      The dictionary's iteration order is not modelled, so when several
      sources fail, the error returned is that of one of them. */
  method ReadChunksToCopy(copies: map<(int, int), CopySource>, worldSource: World) returns (r: Result<map<(int, int), Update>>)
    ensures r.Ok? <==> forall c :: c in copies ==> CopyUpdate(worldSource, copies[c]).Ok?
    ensures r.Ok? ==> r.value.Keys == copies.Keys
    ensures r.Ok? ==> forall c :: c in copies ==> Ok(r.value[c]) == CopyUpdate(worldSource, copies[c])
    ensures r.Err? ==> exists c :: c in copies && CopyUpdate(worldSource, copies[c]) == Err(r.error)
  {
    var result: map<(int, int), Update> := map[];
    var todo := copies.Keys;
    while todo != {}
      invariant todo <= copies.Keys
      invariant result.Keys == copies.Keys - todo
      invariant forall c :: c in result ==> Ok(result[c]) == CopyUpdate(worldSource, copies[c])
      decreases todo
    {
      var c :| c in todo;
      var u := CopyUpdate(worldSource, copies[c]);
      if u.Err? {
        return Err(u.error);
      }
      result := result[c := u.value];
      todo := todo - {c};
    }
    return Ok(result);
  }

  // ---------------------------------------------------------------------
  // What the writers put in the file

  /** The old sector range of `loc` lies entirely inside `data`. */
  predicate Complete(data: seq<byte>, loc: Location)
  {
    (loc.offset + loc.sectors) * SectorSize <= |data|
  }

  /** Every chunk `write` emits fills whole sectors: each kept chunk's old
      range lies inside the file and each replacement is a whole number of
      sectors long (as `EmptyChunk.get_data` guarantees). */
  predicate WriteAligned(data: seq<byte>, updates: map<(int, int), Update>)
  {
    forall cx, cz :: 0 <= cx < 32 && 0 <= cz < 32 ==>
      match WriteUpdateAt(updates, cx, cz)
      case None => ChunkLocation(data, cx, cz).Ok? ==> Complete(data, ChunkLocation(data, cx, cz).value)
      case Some(u) => u.Replacement? ==> |u.bytes| % SectorSize == 0
  }

  /** The update for chunk (cx, cz), if any. */
  function WriteUpdateAt(updates: map<(int, int), Update>, cx: int, cz: int): Option<Update>
  {
    if (cx, cz) in updates then Some(updates[(cx, cz)]) else None
  }

  /** A sector range inside its file fills exactly its sectors. */
  lemma KeptAligned(data: seq<byte>, loc: Location)
    requires Complete(data, loc)
    ensures Kept(data, loc).Aligned() && Kept(data, loc).sectors == loc.sectors
  {
  }

  /** `write` reads the location of every slot, so it fails unless the
      header is complete. */
  lemma WriteNeedsHeader(data: seq<byte>, updates: map<(int, int), Update>)
    requires Assemble(WriteSlots(data, updates)).Ok?
    ensures |data| >= SectorSize
  {
    var slots := WriteSlots(data, updates);
    AssembleParts(slots, Assemble(slots).value);
    WalkShape(slots, |slots|);
    WriteSlotsAt(data, updates, 31, 31);
    assert slots[SlotCount - 1].Ok?;
  }

  /** Under WriteAligned every slot of a complete file is readable and
      aligned. */
  lemma WriteSlotsAligned(data: seq<byte>, updates: map<(int, int), Update>)
    requires |data| >= SectorSize && WriteAligned(data, updates)
    ensures var slots := WriteSlots(data, updates);
            forall j :: 0 <= j < SlotCount ==> slots[j].Ok? && slots[j].value.Aligned()
  {
    var slots := WriteSlots(data, updates);
    forall j | 0 <= j < SlotCount
      ensures slots[j].Ok? && slots[j].value.Aligned()
    {
      var cx, cz := j % 32, j / 32;
      WriteSlotsAt(data, updates, cx, cz);
      var u := WriteUpdateAt(updates, cx, cz);
      if u == None {
        KeptAligned(data, ChunkLocation(data, cx, cz).value);
      }
    }
  }

  /** What the header of the file `write` produces says of each local chunk,
      in terms of the old file and the updates: an untouched chunk keeps its
      sector count, a dropped one is "not generated", a replaced one takes
      `ceil(len / 4096)` sectors; an entry is "not generated" exactly when
      it has no sectors, and otherwise starts right after the two header
      sectors and the sectors of all earlier entries. The file is a whole
      number of sectors and its timestamp table is all zeros. */
  lemma WriteReadsBack(data: seq<byte>, updates: map<(int, int), Update>, final: seq<byte>, cx: int, cz: int)
    requires 0 <= cx < 32 && 0 <= cz < 32
    requires Assemble(WriteSlots(data, updates)) == Ok(final)
    ensures |final| >= 2 * SectorSize && |final| % SectorSize == 0
    ensures forall i :: SectorSize <= i < 2 * SectorSize ==> final[i] == 0
    ensures ChunkLocation(data, cx, cz).Ok? && ChunkLocation(final, cx, cz).Ok?
    ensures var before, after := ChunkLocation(data, cx, cz).value, ChunkLocation(final, cx, cz).value;
            && ((cx, cz) !in updates ==> after.sectors == before.sectors)
            && ((cx, cz) in updates && updates[(cx, cz)].Dropped? ==> after == NotGenerated)
            && ((cx, cz) in updates && updates[(cx, cz)].Replacement? ==>
                  after.sectors == CeilSectors(|updates[(cx, cz)].bytes|))
            && (after.sectors == 0 <==> after == NotGenerated)
            && (after != NotGenerated ==> after.offset == 2 + SectorsBefore(final, cx + 32 * cz))
  {
    WriteSlotsAt(data, updates, cx, cz);
    AssembleSlot(WriteSlots(data, updates), final, cx, cz);
  }

  /** Under WriteAligned the sector range the new header names for a chunk
      holds its old bytes when it was not updated and its new bytes when it
      was replaced. */
  lemma WriteChunkBytes(data: seq<byte>, updates: map<(int, int), Update>, final: seq<byte>, cx: int, cz: int)
    requires 0 <= cx < 32 && 0 <= cz < 32
    requires WriteAligned(data, updates) && Assemble(WriteSlots(data, updates)) == Ok(final)
    ensures ChunkLocation(data, cx, cz).Ok? && ChunkLocation(final, cx, cz).Ok?
    ensures var before, after := ChunkLocation(data, cx, cz).value, ChunkLocation(final, cx, cz).value;
            && ((cx, cz) !in updates ==> SectorRange(final, after) == SectorRange(data, before))
            && ((cx, cz) in updates && updates[(cx, cz)].Replacement? ==>
                  SectorRange(final, after) == updates[(cx, cz)].bytes)
  {
    WriteNeedsHeader(data, updates);
    WriteSlotsAligned(data, updates);
    WriteSlotsAt(data, updates, cx, cz);
    AssembleSlotBytes(WriteSlots(data, updates), final, cx, cz);
  }

  /** `write` succeeds on a complete file whose chunks fill whole sectors
      and whose replacements need at most 255 sectors; the file is then the
      two header sectors followed by exactly the sectors its header gives. */
  lemma WriteSucceeds(data: seq<byte>, updates: map<(int, int), Update>)
    requires |data| >= SectorSize && WriteAligned(data, updates)
    requires forall c :: c in updates && updates[c].Replacement? ==> |updates[c].bytes| <= 255 * SectorSize
    ensures Assemble(WriteSlots(data, updates)).Ok?
    ensures |Assemble(WriteSlots(data, updates)).value| == SectorSize * (2 + SectorsBefore(Assemble(WriteSlots(data, updates)).value, SlotCount))
  {
    var slots := WriteSlots(data, updates);
    WriteSlotsAligned(data, updates);
    forall j | 0 <= j < SlotCount
      ensures slots[j].value.sectors < 256
    {
      WriteSlotsAt(data, updates, j % 32, j / 32);
    }
    WalkSucceeds(slots, SlotCount);
    AssembleAligned(slots);
    var final := Assemble(slots).value;
    AssemblePacked(slots, final, SlotCount);
    assert Walk(slots).value.locs[..SlotCount] == Walk(slots).value.locs;
  }

  /** The copy source of chunk (cx, cz), if it is being copied. */
  function CopyAt(copies: map<(int, int), CopySource>, cx: int, cz: int): Option<CopySource>
  {
    if (cx, cz) in copies then Some(copies[(cx, cz)]) else None
  }

  /** A copy source whose region file exists and whose chunk's sector range
      lies inside it. */
  predicate SourceComplete(world: World, src: CopySource)
  {
    && src.region in world
    && ChunkLocation(world[src.region], src.chunk.0, src.chunk.1).Ok?
    && Complete(world[src.region], ChunkLocation(world[src.region], src.chunk.0, src.chunk.1).value)
  }

  /** Every chunk `copy_chunks` emits fills whole sectors: each readable
      chunk it reads, from its own file or from a source, lies inside that
      file. */
  predicate CopyAligned(data: seq<byte>, copies: map<(int, int), CopySource>, world: World)
  {
    forall cx, cz :: 0 <= cx < 32 && 0 <= cz < 32 ==>
      match CopyAt(copies, cx, cz)
      case None => ChunkLocation(data, cx, cz).Ok? ==> Complete(data, ChunkLocation(data, cx, cz).value)
      case Some(src) =>
        src.region in world && ChunkLocation(world[src.region], src.chunk.0, src.chunk.1).Ok? ==> SourceComplete(world, src)
  }

  /** What the header of the file `copy_chunks` produces says of each local
      chunk: a copied chunk takes the sector count its source region gives
      the source chunk (none for a source not generated), any other chunk
      keeps its own; entries are packed as in `write`. */
  lemma CopyReadsBack(data: seq<byte>, copies: map<(int, int), CopySource>, world: World, final: seq<byte>, cx: int, cz: int)
    requires 0 <= cx < 32 && 0 <= cz < 32
    requires Assemble(CopySlots(data, copies, world)) == Ok(final)
    ensures |final| >= 2 * SectorSize && |final| % SectorSize == 0
    ensures forall i :: SectorSize <= i < 2 * SectorSize ==> final[i] == 0
    ensures ChunkLocation(final, cx, cz).Ok?
    ensures var after := ChunkLocation(final, cx, cz).value;
            && ((cx, cz) in copies ==>
                  var src := copies[(cx, cz)];
                  && src.region in world
                  && ChunkLocation(world[src.region], src.chunk.0, src.chunk.1).Ok?
                  && after.sectors == ChunkLocation(world[src.region], src.chunk.0, src.chunk.1).value.sectors)
            && ((cx, cz) !in copies ==>
                  ChunkLocation(data, cx, cz).Ok? && after.sectors == ChunkLocation(data, cx, cz).value.sectors)
            && (after.sectors == 0 <==> after == NotGenerated)
            && (after != NotGenerated ==> after.offset == 2 + SectorsBefore(final, cx + 32 * cz))
  {
    CopySlotsAt(data, copies, world, cx, cz);
    AssembleSlot(CopySlots(data, copies, world), final, cx, cz);
  }

  /** Under CopyAligned every slot of a successful copy is aligned. */
  lemma CopySlotsAligned(data: seq<byte>, copies: map<(int, int), CopySource>, world: World)
    requires CopyAligned(data, copies, world) && Assemble(CopySlots(data, copies, world)).Ok?
    ensures var slots := CopySlots(data, copies, world);
            forall j :: 0 <= j < SlotCount ==> slots[j].Ok? && slots[j].value.Aligned()
  {
    var slots := CopySlots(data, copies, world);
    AssembleParts(slots, Assemble(slots).value);
    WalkShape(slots, |slots|);
    forall j | 0 <= j < SlotCount
      ensures slots[j].Ok? && slots[j].value.Aligned()
    {
      var cx, cz := j % 32, j / 32;
      CopySlotsAt(data, copies, world, cx, cz);
      match CopyAt(copies, cx, cz)
      case None =>
        KeptAligned(data, ChunkLocation(data, cx, cz).value);
      case Some(src) =>
        var d := world[src.region];
        KeptAligned(d, ChunkLocation(d, src.chunk.0, src.chunk.1).value);
    }
  }

  /** Under CopyAligned the sector range the new header names for a copied
      chunk holds the source chunk's bytes verbatim, and for any other chunk
      its own old bytes. */
  lemma CopyChunkBytes(data: seq<byte>, copies: map<(int, int), CopySource>, world: World, final: seq<byte>, cx: int, cz: int)
    requires 0 <= cx < 32 && 0 <= cz < 32
    requires CopyAligned(data, copies, world) && Assemble(CopySlots(data, copies, world)) == Ok(final)
    ensures ChunkLocation(final, cx, cz).Ok?
    ensures var after := ChunkLocation(final, cx, cz).value;
            && ((cx, cz) in copies ==>
                  var src := copies[(cx, cz)];
                  && src.region in world
                  && ChunkLocation(world[src.region], src.chunk.0, src.chunk.1).Ok?
                  && SectorRange(final, after) ==
                       SectorRange(world[src.region], ChunkLocation(world[src.region], src.chunk.0, src.chunk.1).value))
            && ((cx, cz) !in copies ==>
                  ChunkLocation(data, cx, cz).Ok? && SectorRange(final, after) == SectorRange(data, ChunkLocation(data, cx, cz).value))
  {
    CopySlotsAligned(data, copies, world);
    CopyReadsBack(data, copies, world, final, cx, cz);
    CopySlotsAt(data, copies, world, cx, cz);
    AssembleSlotBytes(CopySlots(data, copies, world), final, cx, cz);
  }

  /** The region file a copy source names is the same in the folder
      `read_chunks_to_copy` reads (`world_source`) and in the folder
      `copy_chunks` reads (the destination's own `self.path`). */
  predicate SameSourceFile(worldSource: World, world: World, src: CopySource)
  {
    src.region in worldSource && src.region in world && worldSource[src.region] == world[src.region]
  }

  /** Per slot: copying a chunk is writing the update read for it from a
      folder holding the same source file. */
  lemma CopySlotIsWriteSlot(data: seq<byte>, copies: map<(int, int), CopySource>, worldSource: World, world: World,
                            updates: map<(int, int), Update>, cx: int, cz: int)
    requires 0 <= cx < 32 && 0 <= cz < 32 && |data| >= SectorSize
    requires (cx, cz) in copies <==> (cx, cz) in updates
    requires (cx, cz) in copies ==>
               && SameSourceFile(worldSource, world, copies[(cx, cz)])
               && SourceComplete(world, copies[(cx, cz)])
               && CopyUpdate(worldSource, copies[(cx, cz)]) == Ok(updates[(cx, cz)])
    ensures WriteSlot(data, updates, cx, cz) == CopySlot(data, copies, world, cx, cz)
  {
    if (cx, cz) in copies {
      var src := copies[(cx, cz)];
      var d := world[src.region];
      assert CopyUpdate(worldSource, src) == CopyUpdate(world, src);
      KeptAligned(d, ChunkLocation(d, src.chunk.0, src.chunk.1).value);
    }
  }

  /** `copy_chunks` writes the same file as `write` given the updates
      `read_chunks_to_copy` reads for the same copies from `worldSource`,
      provided every source file is the same in `worldSource` and in the
      folder `copy_chunks` reads, the file's own header is complete and
      every source chunk's sector range lies inside its file. (For a
      source cut short, `write` records the sectors the truncated bytes
      need while `copy_chunks` records the sector count of the source
      header.) */
  lemma CopyIsWriteOfRead(data: seq<byte>, copies: map<(int, int), CopySource>, worldSource: World, world: World,
                          updates: map<(int, int), Update>)
    requires |data| >= SectorSize && updates.Keys == copies.Keys
    requires forall c :: c in copies ==>
               && SameSourceFile(worldSource, world, copies[c])
               && SourceComplete(world, copies[c])
               && CopyUpdate(worldSource, copies[c]) == Ok(updates[c])
    ensures Assemble(WriteSlots(data, updates)) == Assemble(CopySlots(data, copies, world))
  {
    var w, c := WriteSlots(data, updates), CopySlots(data, copies, world);
    forall j | 0 <= j < SlotCount
      ensures w[j] == c[j]
    {
      var cx, cz := j % 32, j / 32;
      WriteSlotsAt(data, updates, cx, cz);
      CopySlotsAt(data, copies, world, cx, cz);
      CopySlotIsWriteSlot(data, copies, worldSource, world, updates, cx, cz);
    }
    assert w == c;
  }
}
