/** empty_chunk.py: `EmptyChunk`, a chunk built from scratch. It holds 16
    vertical section slots, filled lazily as blocks are set, and frames its
    compressed NBT form for a region file. An `EmptySection`
    (empty_section.py is not part of this model) is a value holding its Y
    index and its blocks blockY local coordinates; NBT values (entities, tile
    entities) are kept as opaque bytes. */
module EmptyChunks {
  import opened Bytes
  import opened Errors

  type Block = string
  type Nbt = seq<byte>

  /** An `EmptySection`: its Y index and the blocks set in it, blockY local
      (x, y, z) inside the 16 x 16 x 16 section. */
  datatype Section = Section(y: int, blocks: map<(int, int, int), Block>)
  {
    /** `EmptySection.get_block`: the block set at a local position. */
    function GetBlock(lx: int, ly: int, lz: int): Option<Block>
    {
      if (lx, ly, lz) in blocks then Some(blocks[(lx, ly, lz)]) else None
    }

    /** `EmptySection.set_block`: the section with one block set. */
    function SetBlock(b: Block, lx: int, ly: int, lz: int): Section
    {
      Section(y, blocks[(lx, ly, lz) := b])
    }
  }

  const SectionCount := 16
  const DataVersion := 1976

  /** The slot a Python list index names in a list of n: an index from
      `-n` to `n - 1` counts from the end when negative; any other raises
      IndexError. */
  function ListIndex(i: int, n: nat): (r: Option<nat>)
    ensures r.Some? <==> -(n as int) <= i < n
    ensures r.Some? ==> r.value < n && (r.value - i) % n == 0
  {
    if 0 <= i < n then Some(i) else if -(n as int) <= i < 0 then Some(i + n) else None
  }

  /** Both `get_block` and `set_block` accept x and z from 0 to 15 and y from
      0 to 255. */
  predicate InBounds(x: int, y: int, z: int)
  {
    0 <= x <= 15 && 0 <= z <= 15 && 0 <= y <= 255
  }

  // ---------------------------------------------------------------------
  // The section list as a value

  /** `add_section` on the section list `s`: the list with the section
      stored at its Y index, EmptySectionAlreadyExists when that slot is
      taken and `replace` is false, IndexError when the index is outside the
      list. */
  function AddSectionTo(s: seq<Option<Section>>, section: Section, replace: bool): Result<seq<Option<Section>>>
  {
    match ListIndex(section.y, |s|)
    case None => Err(IndexError)
    case Some(i) =>
      if s[i].Some? && !replace then Err(EmptySectionAlreadyExists) else Ok(s[i := Some(section)])
  }

  /** `get_block` on the section list `s`: the block at (x, y, z), read from
      section `y // 16` at local height `y % 16`; None when that section is
      empty. */
  function BlockAt(s: seq<Option<Section>>, x: int, y: int, z: int): Result<Option<Block>>
    requires |s| == SectionCount
  {
    if !InBounds(x, y, z) then Err(OutOfBoundsCoordinates)
    else
      match s[y / 16]
      case None => Ok(None)
      case Some(section) => Ok(section.GetBlock(x, y % 16, z))
  }

  /** `set_block` on the section list `s`: section `y // 16`, created empty
      when missing, with the block set at local height `y % 16`; the list
      unchanged when the coordinates are out of bounds. */
  function BlockSet(s: seq<Option<Section>>, b: Block, x: int, y: int, z: int): seq<Option<Section>>
    requires |s| == SectionCount
  {
    if !InBounds(x, y, z) then s
    else
      var section := if s[y / 16].None? then Section(y / 16, map[]) else s[y / 16].value;
      s[y / 16 := Some(section.SetBlock(b, x, y % 16, z))]
  }

  // ---------------------------------------------------------------------
  // The class

  class EmptyChunk {
    var x: int
    var z: int
    var sections: array<Option<Section>>
    var version: int
    var entities: Option<Nbt>
    var tileEntities: Option<Nbt>

    /** The section list has its 16 slots. */
    ghost predicate Valid()
      reads this
    {
      sections.Length == SectionCount
    }

    /** `EmptyChunk(x, z)`: 16 empty section slots, data version 1976, no
        entities and no tile entities. */
    constructor (x: int, z: int)
      ensures Valid() && fresh(sections)
      ensures this.x == x && this.z == z
      ensures sections[..] == seq(SectionCount, _ => None)
      ensures version == DataVersion && entities == None && tileEntities == None
    {
      this.x := x;
      this.z := z;
      sections := new Option<Section>[SectionCount](_ => None);
      version := DataVersion;
      entities := None;
      tileEntities := None;
    }

    /** `add_section`: stores the section at its Y index unless that slot is
        taken and `replace` is false; on an error nothing changes. */
    method AddSection(section: Section, replace: bool) returns (r: Outcome)
      requires Valid()
      modifies sections
      ensures Valid()
      ensures AddSectionTo(old(sections[..]), section, replace).Ok? ==>
                r == Pass && sections[..] == AddSectionTo(old(sections[..]), section, replace).value
      ensures AddSectionTo(old(sections[..]), section, replace).Err? ==>
                r == Fail(AddSectionTo(old(sections[..]), section, replace).error) && sections[..] == old(sections[..])
    {
      var i := ListIndex(section.y, sections.Length);
      if i.None? {
        return Fail(IndexError);
      }
      if sections[i.value].Some? && !replace {
        return Fail(EmptySectionAlreadyExists);
      }
      sections[i.value] := Some(section);
      return Pass;
    }

    /** `add_entities`: stores whatever it is given, None included. */
    method AddEntities(e: Option<Nbt>)
      modifies this
      ensures entities == e
      ensures x == old(x) && z == old(z) && sections == old(sections) && version == old(version)
      ensures tileEntities == old(tileEntities)
    {
      entities := e;
    }

    /** `add_tile_entities`: stores whatever it is given, None included. */
    method AddTileEntities(e: Option<Nbt>)
      modifies this
      ensures tileEntities == e
      ensures x == old(x) && z == old(z) && sections == old(sections) && version == old(version)
      ensures entities == old(entities)
    {
      tileEntities := e;
    }

    /** `get_block`: the block at (x, y, z) of the chunk, None when its
        section is empty, OutOfBoundsCoordinates outside the chunk. */
    method GetBlock(blockX: int, blockY: int, blockZ: int) returns (r: Result<Option<Block>>)
      requires Valid()
      ensures r == BlockAt(sections[..], blockX, blockY, blockZ)
    {
      if blockX < 0 || blockX > 15 {
        return Err(OutOfBoundsCoordinates);
      }
      if blockZ < 0 || blockZ > 15 {
        return Err(OutOfBoundsCoordinates);
      }
      if blockY < 0 || blockY > 255 {
        return Err(OutOfBoundsCoordinates);
      }
      var section := sections[blockY / 16];
      if section.None? {
        return Ok(None);
      }
      return Ok(section.value.GetBlock(blockX, blockY % 16, blockZ));
    }

    /** `set_block`: sets the block at (x, y, z), creating its section when
        missing; OutOfBoundsCoordinates outside the chunk, changing
        nothing. */
    method SetBlock(block: Block, blockX: int, blockY: int, blockZ: int) returns (r: Outcome)
      requires Valid()
      modifies sections
      ensures Valid()
      ensures r == (if InBounds(blockX, blockY, blockZ) then Pass else Fail(OutOfBoundsCoordinates))
      ensures sections[..] == BlockSet(old(sections[..]), block, blockX, blockY, blockZ)
    {
      if blockX < 0 || blockX > 15 {
        return Fail(OutOfBoundsCoordinates);
      }
      if blockZ < 0 || blockZ > 15 {
        return Fail(OutOfBoundsCoordinates);
      }
      if blockY < 0 || blockY > 255 {
        return Fail(OutOfBoundsCoordinates);
      }
      var section := sections[blockY / 16];
      if section.None? {
        var created := Section(blockY / 16, map[]);
        var added := AddSection(created, true);
        section := Some(created);
      }
      // the section object is the one in the list, so setting its block
      // updates the stored section
      sections[blockY / 16] := Some(section.value.SetBlock(block, blockX, blockY % 16, blockZ));
      return Pass;
    }
  }

  // ---------------------------------------------------------------------
  // get_data framing

  /** The frame `get_data` builds around the compressed NBT payload: the
      4-byte big-endian `len(payload) + 1`, the compression byte 2, the
      payload and zero padding of `4096 - len % 4096` bytes; OverflowError
      when the length does not fit in 4 bytes. Compression itself and the
      NBT form of the chunk are not part of this model. */
  function GetData(payload: seq<byte>): (r: Result<seq<byte>>)
    ensures r.Ok? <==> |payload| + 1 < Pow256(4)
    ensures r.Err? ==> r.error == OverflowError
    ensures r.Ok? ==> |r.value| % 4096 == 0
  {
    var length := |payload| + 1;
    if length >= Pow256(4) then Err(OverflowError)
    else
      var head := ToBigEndian(length, 4) + [2] + payload;
      PaddedToSector(|head|);
      Ok(head + Zeros(4096 - |head| % 4096))
  }

  /** Padding n bytes with `4096 - n % 4096` zeros ends on a sector
      boundary. */
  lemma PaddedToSector(n: nat)
    ensures (n + (4096 - n % 4096)) % 4096 == 0
  {
    assert n + (4096 - n % 4096) == (n / 4096 + 1) * 4096;
  }

  // ---------------------------------------------------------------------
  // Properties

  /** The layout of a frame: length prefix, compression byte 2, payload,
      then between 1 and 4096 zero bytes, so a frame that would already
      end on a sector boundary gains a whole zero sector. */
  lemma FrameLayout(payload: seq<byte>)
    requires GetData(payload).Ok?
    ensures var f := GetData(payload).value;
            && 5 + |payload| < |f| <= 5 + |payload| + 4096
            && BigEndian(f[..4]) == |payload| + 1
            && f[4] == 2
            && f[5..5 + |payload|] == payload
            && (forall i :: 5 + |payload| <= i < |f| ==> f[i] == 0)
  {
    var f := GetData(payload).value;
    var prefix := ToBigEndian(|payload| + 1, 4);
    var head := prefix + [2] + payload;
    assert f == head + Zeros(4096 - |head| % 4096);
    assert f[..4] == prefix;
    BigEndianRoundTrip(|payload| + 1, 4);
    assert f[5..5 + |payload|] == payload by {
      assert f[..|head|] == head;
      assert head[5..] == payload;
    }
    forall i | 5 + |payload| <= i < |f| ensures f[i] == 0 {
      assert f[i] == Zeros(4096 - |head| % 4096)[i - |head|];
    }
  }

  /** A fresh chunk answers None for every in-bounds block. */
  lemma FreshChunkEmpty(x: int, y: int, z: int)
    requires InBounds(x, y, z)
    ensures BlockAt(seq(SectionCount, _ => None), x, y, z) == Ok(None)
  {
  }

  /** `add_section` stores the section at the slot its Y index names and
      changes no other slot; with `replace` it never raises for a valid
      index, without it it raises exactly when the slot is taken. */
  lemma AddSectionPlaces(s: seq<Option<Section>>, section: Section, replace: bool)
    ensures AddSectionTo(s, section, replace) == Err(IndexError) <==> ListIndex(section.y, |s|).None?
    ensures ListIndex(section.y, |s|).Some? ==>
              var i := ListIndex(section.y, |s|).value;
              && (AddSectionTo(s, section, replace) == Err(EmptySectionAlreadyExists) <==> s[i].Some? && !replace)
              && (AddSectionTo(s, section, replace).Ok? ==>
                    var t := AddSectionTo(s, section, replace).value;
                    |t| == |s| && t[i] == Some(section) && forall j :: 0 <= j < |s| && j != i ==> t[j] == s[j])
  {
  }

  /** Reading back a block just set gives it; every other position reads
      as before, whether or not its section had to be created. */
  lemma SetThenGet(s: seq<Option<Section>>, b: Block, x: int, y: int, z: int, x': int, y': int, z': int)
    requires |s| == SectionCount && InBounds(x, y, z)
    ensures |BlockSet(s, b, x, y, z)| == SectionCount
    ensures BlockAt(BlockSet(s, b, x, y, z), x, y, z) == Ok(Some(b))
    ensures (x', y', z') != (x, y, z) ==> BlockAt(BlockSet(s, b, x, y, z), x', y', z') == BlockAt(s, x', y', z')
  {
    if InBounds(x', y', z') && y' / 16 == y / 16 && (x', y', z') != (x, y, z) {
      assert (x', y' % 16, z') != (x, y % 16, z);
    }
  }

  /** `set_block` touches only the slot `y // 16`, and creates a section
      there only when it was empty, with index `y // 16`. */
  lemma SetBlockFrame(s: seq<Option<Section>>, b: Block, x: int, y: int, z: int)
    requires |s| == SectionCount && InBounds(x, y, z)
    ensures var t := BlockSet(s, b, x, y, z);
            && |t| == SectionCount
            && (forall j :: 0 <= j < SectionCount && j != y / 16 ==> t[j] == s[j])
            && t[y / 16].Some?
            && (s[y / 16].None? ==> t[y / 16].value.y == y / 16 && t[y / 16].value.blocks == map[(x, y % 16, z) := b])
            && (s[y / 16].Some? ==> t[y / 16].value == s[y / 16].value.SetBlock(b, x, y % 16, z))
  {
  }
}
