/** The command-line tool of bin/mcblock.py up to the analysis: it checks
    its arguments, derives the search box, the chunk rectangle around the
    centre block and the region files to read, and computes the area and
    volume the density figure refers to. Argument parsing, the environment
    and printing are not modelled: their results are parameters. */
module McBlock {
  import opened Errors
  import opened Converter
  import opened Partition

  type BlockId = string
  type Coord = (int, int, int)

  /** The parsed arguments: `--world`, `--coords x y z`, `--radius`
      (default 10), `--vertical`, `--region rx rz`, `--find`, `--list`. */
  datatype Args = Args(world: Option<string>, coords: Option<Coord>, radius: int, vertical: bool,
                       region: Option<RegionPos>, find: Option<BlockId>, list: bool)

  /** A world path is given: `MINECRAFTWORLD` is set (to anything, even the
      empty string), or `--world` is a non-empty string. */
  predicate WorldGiven(env: Option<string>, args: Args)
  {
    env.Some? || (args.world.Some? && args.world.value != "")
  }

  /** Coordinates or a region are given. */
  predicate HasTarget(args: Args)
  {
    args.coords.Some? || args.region.Some?
  }

  /** The checks at the start of the run, in their order: a world path, a
      non-zero radius, a target, a radius of at most 200. The result is the
      world path, taken from `MINECRAFTWORLD` before `--world`. */
  function Validate(env: Option<string>, args: Args): (r: Result<string>)
    ensures r.Ok? <==> WorldGiven(env, args) && args.radius != 0 && HasTarget(args) && args.radius <= 200
    ensures r.Ok? ==> r.value == if env.Some? then env.value else args.world.value
  {
    var world := if env.Some? then Ok(env.value)
                 else if args.world.Some? && args.world.value != "" then Ok(args.world.value)
                 else Err(WorldUndefined);
    if world.Err? then world
    else if args.radius == 0 then Err(RadiusUndefined)
    else if args.coords.None? && args.region.None? then Err(TargetUndefined)
    else if args.radius > 200 then Err(RadiusTooLarge)
    else world
  }

  /** The first failing check decides the error. */
  lemma ValidateFirstFailure(env: Option<string>, args: Args)
    ensures !WorldGiven(env, args) ==> Validate(env, args) == Err(WorldUndefined)
    ensures WorldGiven(env, args) && args.radius == 0 ==> Validate(env, args) == Err(RadiusUndefined)
    ensures WorldGiven(env, args) && args.radius != 0 && !HasTarget(args) ==>
              Validate(env, args) == Err(TargetUndefined)
    ensures WorldGiven(env, args) && args.radius != 0 && HasTarget(args) && args.radius > 200 ==>
              Validate(env, args) == Err(RadiusTooLarge)
  {
  }

  // ---------------------------------------------------------------------
  // The search box

  /** Inclusive block coordinates of the search box. */
  datatype Box = Box(lo: Coord, hi: Coord)
  {
    predicate Contains(p: Coord)
    {
      lo.0 <= p.0 <= hi.0 && lo.1 <= p.1 <= hi.1 && lo.2 <= p.2 <= hi.2
    }
  }

  /** The search area: None with a region, else the box of the radius
      around the coordinates, reaching from y = -1 to 256 in vertical
      mode. */
  function SearchArea(args: Args): (area: Option<Box>)
    requires HasTarget(args)
    ensures area.None? <==> args.region.Some?
  {
    if args.region.Some? then None
    else
      var (x, y, z) := args.coords.value;
      var r := args.radius;
      if args.vertical then Some(Box((x - r, -1, z - r), (x + r, 256, z + r)))
      else Some(Box((x - r, y - r, z - r), (x + r, y + r, z + r)))
  }

  /** The box holds exactly the blocks within the radius of the
      coordinates on each axis, on the vertical axis every height of the
      world and one beyond either end in vertical mode. */
  lemma SearchAreaContains(args: Args, p: Coord)
    requires args.region.None? && args.coords.Some?
    ensures var c := args.coords.value;
            var r := args.radius;
            SearchArea(args).value.Contains(p) <==>
              && c.0 - r <= p.0 <= c.0 + r && c.2 - r <= p.2 <= c.2 + r
              && (if args.vertical then -1 <= p.1 <= 256 else c.1 - r <= p.1 <= c.1 + r)
  {
  }

  /** With a non-negative radius the box contains the centre, and in
      vertical mode every height 0 to 255 above it. */
  lemma SearchAreaCentre(args: Args, y: int)
    requires args.region.None? && args.coords.Some? && args.radius >= 0
    ensures !args.vertical ==> SearchArea(args).value.Contains(args.coords.value)
    ensures args.vertical && 0 <= y <= 255 ==>
              SearchArea(args).value.Contains((args.coords.value.0, y, args.coords.value.2))
  {
  }

  // ---------------------------------------------------------------------
  // Chunk and block bounds

  /** The chunk rectangle: on each axis from the chunk of the block `r`
      below the centre to the chunk of the block `r` above it. */
  function ChunkBounds(xc: int, zc: int, r: int): (b: ChunkRect)
    ensures r >= 0 ==> b.xMin <= b.xMax && b.zMin <= b.zMax
  {
    var b := ChunkRect(BlockToChunk(xc - r, zc).0, BlockToChunk(xc + r, zc).0,
                       BlockToChunk(xc, zc - r).1, BlockToChunk(xc, zc + r).1);
    assert 16 * b.xMin <= xc - r && xc + r < 16 * b.xMax + 16;
    b
  }

  /** The rectangle is the least one covering the radius: the chunk of
      every block within the radius is in it, and every chunk in it holds
      a block within the radius. */
  lemma ChunkBoundsCover(xc: int, zc: int, r: int)
    requires r >= 0
    ensures var b := ChunkBounds(xc, zc, r);
            && (forall x :: xc - r <= x <= xc + r ==> b.xMin <= BlockToChunk(x, zc).0 <= b.xMax)
            && (forall z :: zc - r <= z <= zc + r ==> b.zMin <= BlockToChunk(xc, z).1 <= b.zMax)
            && (forall cx :: b.xMin <= cx <= b.xMax ==> xc - r <= 16 * cx + 15 && 16 * cx <= xc + r)
            && (forall cz :: b.zMin <= cz <= b.zMax ==> zc - r <= 16 * cz + 15 && 16 * cz <= zc + r)
  {
    var b := ChunkBounds(xc, zc, r);
    forall x | xc - r <= x <= xc + r ensures b.xMin <= BlockToChunk(x, zc).0 <= b.xMax {
      var c := BlockToChunk(x, zc).0;
      assert 16 * c <= x < 16 * c + 16;
    }
    forall z | zc - r <= z <= zc + r ensures b.zMin <= BlockToChunk(xc, z).1 <= b.zMax {
      var c := BlockToChunk(xc, z).1;
      assert 16 * c <= z < 16 * c + 16;
    }
  }

  /** The block edges `x_min .. x_max`, `z_min .. z_max` of the chunk
      rectangle, as reported in verbose mode. */
  function BlockBounds(xc: int, zc: int, r: int): (Range, Range)
  {
    var b := ChunkBounds(xc, zc, r);
    (Range(ChunkToBlock(b.xMin, zc).0.lo, ChunkToBlock(b.xMax, zc).0.hi),
     Range(ChunkToBlock(xc, b.zMin).1.lo, ChunkToBlock(xc, b.zMax).1.hi))
  }

  /** The block edges are whole chunks: they contain the radius, and
      reach less than a chunk beyond it. */
  lemma BlockBoundsCover(xc: int, zc: int, r: int)
    requires r >= 0
    ensures var (bx, bz) := BlockBounds(xc, zc, r);
            var b := ChunkBounds(xc, zc, r);
            && bx.lo == 16 * b.xMin && bx.hi == 16 * b.xMax + 15
            && bz.lo == 16 * b.zMin && bz.hi == 16 * b.zMax + 15
            && bx.lo <= xc - r < bx.lo + 16 && bx.hi - 16 < xc + r <= bx.hi
            && bz.lo <= zc - r < bz.lo + 16 && bz.hi - 16 < zc + r <= bz.hi
  {
  }

  // ---------------------------------------------------------------------
  // The regions to read

  /** What to read of a region: all of it, or the listed chunks. */
  datatype ChunkList = All | Chunks(chunks: seq<ChunkPos>)

  /** The chunk rectangle of a coordinate search. */
  function SearchChunks(args: Args): ChunkRect
    requires args.coords.Some?
  {
    ChunkBounds(args.coords.value.0, args.coords.value.2, args.radius)
  }

  /** The `regions` dictionary: `{(rx, rz): 'all'}` for a region, else the
      partition of the chunk rectangle; `order` is its key order. */
  method Targets(args: Args) returns (regions: map<RegionPos, ChunkList>, order: seq<RegionPos>)
    requires HasTarget(args)
    ensures args.region.Some? ==> regions == map[args.region.value := All] && order == [args.region.value]
    ensures args.region.None? ==>
              var s := Rect(SearchChunks(args));
              && order == RegionsOf(s)
              && (forall k :: k in regions <==> k in order)
              && (forall k | k in regions :: regions[k] == Chunks(GroupOf(s, k)))
  {
    if args.region.Some? {
      regions := map[args.region.value := All];
      order := [args.region.value];
    } else {
      var parts, keys := PartitionChunks(SearchChunks(args));
      regions := map k | k in parts :: Chunks(parts[k]);
      order := keys;
    }
  }

  // ---------------------------------------------------------------------
  // Area and volume

  /** The area the density refers to: a whole region, or the square of
      side `2 * radius`. */
  function Square(args: Args): int
  {
    if args.region.Some? then RegionWidth * RegionWidth else 4 * args.radius * args.radius
  }

  /** The volume searched: 256 blocks high for a region or in vertical mode,
      else a cube of side `2 * radius`. */
  function Volume(args: Args): int
  {
    if args.region.Some? || args.vertical then Square(args) * 256 else 2 * Square(args) * args.radius
  }

  /** A region covers 512 by 512 blocks, 256 high. */
  lemma RegionArea(args: Args)
    requires args.region.Some?
    ensures Square(args) == 262144 && Volume(args) == 67108864
    ensures var (bx, bz) := RegionToBlock(args.region.value.0, args.region.value.1);
            Square(args) == (bx.hi - bx.lo + 1) * (bz.hi - bz.lo + 1)
  {
  }

  /** For a coordinate search the area is the product of the search box's
      side lengths `hi - lo` and, outside vertical mode, the volume is that
      times the vertical side; in vertical mode the height is the world's
      256. The inclusive box holds one block more per side: `(2r + 1)^2`
      columns, which is `4r + 1` more than the area, and in vertical mode
      258 heights. */
  lemma BoxArea(args: Args)
    requires args.region.None? && args.coords.Some?
    ensures var a := SearchArea(args).value;
            && Square(args) == (a.hi.0 - a.lo.0) * (a.hi.2 - a.lo.2)
            && (!args.vertical ==> Volume(args) == (a.hi.0 - a.lo.0) * (a.hi.1 - a.lo.1) * (a.hi.2 - a.lo.2))
            && (args.vertical ==> Volume(args) == Square(args) * 256)
            && (a.hi.0 - a.lo.0 + 1) * (a.hi.2 - a.lo.2 + 1) == Square(args) + 4 * args.radius + 1
            && (args.vertical ==> a.hi.1 - a.lo.1 + 1 == 258)
  {
    var r := args.radius;
    assert (2 * r) * (2 * r) == 4 * r * r;
    assert (2 * r) * (2 * r) * (2 * r) == 2 * (4 * r * r) * r;
    assert (2 * r + 1) * (2 * r + 1) == 4 * r * r + 4 * r + 1;
  }

  /** The default radius 10 gives 400 square blocks and 8000 cubic blocks. */
  lemma DefaultRadiusArea(args: Args)
    requires args.region.None? && !args.vertical && args.radius == 10
    ensures Square(args) == 400 && Volume(args) == 8000
  {
  }
}
