/** The region partition of mcblock.py: every chunk of the search
    rectangle, visited column by column (x outer, z inner), is appended to
    the list of the region file holding it. The dictionary of lists is
    modelled as a map together with its key insertion order, the order in
    which Python iterates it later. */
module Partition {
  import opened Converter

  type ChunkPos = (int, int)
  type RegionPos = (int, int)

  /** Inclusive chunk bounds on both axes. */
  datatype ChunkRect = ChunkRect(xMin: int, xMax: int, zMin: int, zMax: int)

  function RegionOf(c: ChunkPos): RegionPos
  {
    ChunkToRegion(c.0, c.1)
  }

  /** The number of integers in `[lo, end)`, 0 for an empty range. */
  function Width(lo: int, end: int): nat
  {
    if end <= lo then 0 else end - lo
  }

  /** Lexicographic order on chunk coordinates. */
  predicate Less(a: ChunkPos, b: ChunkPos)
  {
    a.0 < b.0 || (a.0 == b.0 && a.1 < b.1)
  }

  /** Strictly ascending, so also without repetitions. */
  predicate Sorted(s: seq<ChunkPos>)
  {
    forall i, j :: 0 <= i < j < |s| ==> Less(s[i], s[j])
  }

  // ---------------------------------------------------------------------
  // The visiting order

  /** The chunks `(cx, czMin) .. (cx, czEnd - 1)` the inner loop visits. */
  function Column(cx: int, czMin: int, czEnd: int): seq<ChunkPos>
    decreases czEnd - czMin
  {
    if czEnd <= czMin then [] else Column(cx, czMin, czEnd - 1) + [(cx, czEnd - 1)]
  }

  /** The chunks of the columns `b.xMin .. cxEnd - 1`, in visiting order. */
  function Rows(b: ChunkRect, cxEnd: int): seq<ChunkPos>
    decreases cxEnd - b.xMin
  {
    if cxEnd <= b.xMin then [] else Rows(b, cxEnd - 1) + Column(cxEnd - 1, b.zMin, b.zMax + 1)
  }

  /** Every chunk of the rectangle, in the order of the nested loops. */
  function Rect(b: ChunkRect): seq<ChunkPos>
  {
    Rows(b, b.xMax + 1)
  }

  // ---------------------------------------------------------------------
  // Grouping a stream of chunks by region

  /** The chunks of s that lie in region `key`, in the order of s. */
  function GroupOf(s: seq<ChunkPos>, key: RegionPos): seq<ChunkPos>
  {
    if s == [] then []
    else GroupOf(s[..|s| - 1], key) + (if RegionOf(s[|s| - 1]) == key then [s[|s| - 1]] else [])
  }

  /** The regions of the chunks of s, each once, in order of first
      appearance: the insertion order of the dictionary. */
  function RegionsOf(s: seq<ChunkPos>): seq<RegionPos>
  {
    if s == [] then []
    else
      var keys := RegionsOf(s[..|s| - 1]);
      if RegionOf(s[|s| - 1]) in keys then keys else keys + [RegionOf(s[|s| - 1])]
  }

  /** The dictionary after visiting the chunks s: its keys in insertion
      order, and under each key the chunks of that region. */
  ghost predicate Partitioned(regions: map<RegionPos, seq<ChunkPos>>, order: seq<RegionPos>, s: seq<ChunkPos>)
  {
    && order == RegionsOf(s)
    && (forall k :: k in regions <==> k in order)
    && (forall k | k in regions :: regions[k] == GroupOf(s, k))
  }

  /** Sum of the list lengths under the keys. */
  function SumSizes(s: seq<ChunkPos>, keys: seq<RegionPos>): nat
  {
    if keys == [] then 0 else SumSizes(s, keys[..|keys| - 1]) + |GroupOf(s, keys[|keys| - 1])|
  }

  // ---------------------------------------------------------------------
  // The loop

  /** Appending one chunk to its region's list, or starting the list,
      keeps the dictionary in step with the chunks visited. */
  lemma PartitionStep(regions: map<RegionPos, seq<ChunkPos>>, order: seq<RegionPos>, s: seq<ChunkPos>, c: ChunkPos)
    requires Partitioned(regions, order, s)
    ensures RegionOf(c) in regions ==>
              Partitioned(regions[RegionOf(c) := regions[RegionOf(c)] + [c]], order, s + [c])
    ensures RegionOf(c) !in regions ==>
              Partitioned(regions[RegionOf(c) := [c]], order + [RegionOf(c)], s + [c])
  {
    assert (s + [c])[..|s|] == s;
    if RegionOf(c) !in regions {
      assert GroupOf(s, RegionOf(c)) == [] by {
        GroupEmpty(s, RegionOf(c));
      }
    }
  }

  /** The body of the inner loop: `regions[reg].append(chunk)` when the
      region is a key, `regions[reg] = [chunk]` otherwise. */
  method AddChunk(regions: map<RegionPos, seq<ChunkPos>>, order: seq<RegionPos>, ghost s: seq<ChunkPos>, ghost next: seq<ChunkPos>, chunk: ChunkPos)
    returns (regions': map<RegionPos, seq<ChunkPos>>, order': seq<RegionPos>)
    requires Partitioned(regions, order, s) && next == s + [chunk]
    ensures Partitioned(regions', order', next)
  {
    var reg := ChunkToRegion(chunk.0, chunk.1);
    PartitionStep(regions, order, s, chunk);
    if reg in regions {
      regions', order' := regions[reg := regions[reg] + [chunk]], order;
    } else {
      regions', order' := regions[reg := [chunk]], order + [reg];
    }
  }

  /** The inner loop over `range(z_min, z_max + 1)` for the column cx. */
  method PartitionColumn(b: ChunkRect, cx: int, regions: map<RegionPos, seq<ChunkPos>>, order: seq<RegionPos>)
    returns (regions': map<RegionPos, seq<ChunkPos>>, order': seq<RegionPos>)
    requires cx >= b.xMin && Partitioned(regions, order, Rows(b, cx))
    ensures Partitioned(regions', order', Rows(b, cx + 1))
  {
    regions', order' := regions, order;
    var cz := b.zMin;
    ghost var visited := Rows(b, cx);
    assert Rows(b, cx) + Column(cx, b.zMin, cz) == visited;
    while cz < b.zMax + 1
      invariant b.zMin <= cz && (cz <= b.zMax + 1 || cz == b.zMin)
      invariant visited == Rows(b, cx) + Column(cx, b.zMin, cz)
      invariant Partitioned(regions', order', visited)
      decreases b.zMax + 1 - cz
    {
      ColumnSnoc(b, cx, cz);
      regions', order' := AddChunk(regions', order', visited, visited + [(cx, cz)], (cx, cz));
      visited := visited + [(cx, cz)];
      cz := cz + 1;
    }
    ColumnDone(b, cx, cz);
  }

  /** When the inner loop ends, the visited chunks are the columns up to
      and including cx. */
  lemma ColumnDone(b: ChunkRect, cx: int, cz: int)
    requires cx >= b.xMin && b.zMin <= cz && (cz == b.zMax + 1 || (cz == b.zMin && b.zMax + 1 < b.zMin))
    ensures Rows(b, cx) + Column(cx, b.zMin, cz) == Rows(b, cx + 1)
  {
    assert Column(cx, b.zMin, cz) == Column(cx, b.zMin, b.zMax + 1);
  }

  /** One more step of the inner loop visits one more chunk. */
  lemma ColumnSnoc(b: ChunkRect, cx: int, cz: int)
    requires cz >= b.zMin
    ensures Rows(b, cx) + Column(cx, b.zMin, cz + 1) == Rows(b, cx) + Column(cx, b.zMin, cz) + [(cx, cz)]
  {
  }

  /** The nested loops of mcblock.py over `range(x_min, x_max + 1)` and
      `range(z_min, z_max + 1)`: each chunk goes to the list of its region,
      a new region starting a new list. */
  method PartitionChunks(b: ChunkRect) returns (regions: map<RegionPos, seq<ChunkPos>>, order: seq<RegionPos>)
    ensures Partitioned(regions, order, Rect(b))
  {
    regions := map[];
    order := [];
    var cx := b.xMin;
    while cx < b.xMax + 1
      invariant b.xMin <= cx && (cx <= b.xMax + 1 || cx == b.xMin)
      invariant Partitioned(regions, order, Rows(b, cx))
      decreases b.xMax + 1 - cx
    {
      regions, order := PartitionColumn(b, cx, regions, order);
      cx := cx + 1;
    }
  }

  // ---------------------------------------------------------------------
  // Properties of the visiting order

  /** The inner loop visits `(cx, czMin + i)` at step i. */
  lemma {:induction false} ColumnAt(cx: int, czMin: int, czEnd: int)
    ensures |Column(cx, czMin, czEnd)| == Width(czMin, czEnd)
    ensures forall i :: 0 <= i < |Column(cx, czMin, czEnd)| ==> Column(cx, czMin, czEnd)[i] == (cx, czMin + i)
    decreases czEnd - czMin
  {
    if czEnd > czMin {
      ColumnAt(cx, czMin, czEnd - 1);
    }
  }

  /** A column holds exactly the chunks `(cx, z)` with z in `[czMin, czEnd)`. */
  lemma ColumnMembers(cx: int, czMin: int, czEnd: int)
    ensures forall c :: c in Column(cx, czMin, czEnd) <==> c.0 == cx && czMin <= c.1 < czEnd
  {
    var col := Column(cx, czMin, czEnd);
    ColumnAt(cx, czMin, czEnd);
    forall c: ChunkPos | c.0 == cx && czMin <= c.1 < czEnd ensures c in col {
      assert col[c.1 - czMin] == c;
    }
  }

  /** The columns visited so far hold exactly the chunks left of cxEnd
      within the z bounds. */
  lemma {:induction false} RowsMembers(b: ChunkRect, cxEnd: int)
    ensures forall c :: c in Rows(b, cxEnd) <==> b.xMin <= c.0 < cxEnd && b.zMin <= c.1 <= b.zMax
    decreases cxEnd - b.xMin
  {
    if cxEnd > b.xMin {
      RowsMembers(b, cxEnd - 1);
      ColumnMembers(cxEnd - 1, b.zMin, b.zMax + 1);
    }
  }

  /** The columns visited so far number width times height chunks. */
  lemma {:induction false} RowsSize(b: ChunkRect, cxEnd: int)
    ensures |Rows(b, cxEnd)| == Width(b.xMin, cxEnd) * Width(b.zMin, b.zMax + 1)
    decreases cxEnd - b.xMin
  {
    if cxEnd > b.xMin {
      RowsSize(b, cxEnd - 1);
      ColumnAt(cxEnd - 1, b.zMin, b.zMax + 1);
      assert Width(b.xMin, cxEnd) == Width(b.xMin, cxEnd - 1) + 1;
    }
  }

  /** Concatenating two ascending sequences, all of the first below all of
      the second, is ascending. */
  lemma SortedConcat(a: seq<ChunkPos>, c: seq<ChunkPos>)
    requires Sorted(a) && Sorted(c)
    requires forall x, y :: x in a && y in c ==> Less(x, y)
    ensures Sorted(a + c)
  {
    forall i, j | 0 <= i < j < |a + c| ensures Less((a + c)[i], (a + c)[j]) {
      if i < |a| && j >= |a| {
        assert (a + c)[i] in a && (a + c)[j] in c;
      }
    }
  }

  /** The nested loops visit the chunks in ascending lexicographic order. */
  lemma {:induction false} RowsSorted(b: ChunkRect, cxEnd: int)
    ensures Sorted(Rows(b, cxEnd))
    decreases cxEnd - b.xMin
  {
    if cxEnd > b.xMin {
      RowsSorted(b, cxEnd - 1);
      RowsMembers(b, cxEnd - 1);
      var col := Column(cxEnd - 1, b.zMin, b.zMax + 1);
      ColumnAt(cxEnd - 1, b.zMin, b.zMax + 1);
      ColumnMembers(cxEnd - 1, b.zMin, b.zMax + 1);
      SortedConcat(Rows(b, cxEnd - 1), col);
    }
  }

  // ---------------------------------------------------------------------
  // Properties of the grouping

  /** A region's list holds exactly the visited chunks of that region. */
  lemma {:induction false} GroupMembers(s: seq<ChunkPos>, key: RegionPos)
    ensures forall c :: c in GroupOf(s, key) <==> c in s && RegionOf(c) == key
  {
    if s != [] {
      GroupMembers(s[..|s| - 1], key);
      assert s == s[..|s| - 1] + [s[|s| - 1]];
    }
  }

  /** A region is a key exactly when some visited chunk lies in it, and then
      its list is not empty. */
  lemma {:induction false} GroupEmpty(s: seq<ChunkPos>, key: RegionPos)
    ensures key in RegionsOf(s) <==> GroupOf(s, key) != []
  {
    if s != [] {
      GroupEmpty(s[..|s| - 1], key);
    }
  }

  /** Each region is a key once. */
  lemma {:induction false} RegionsDistinct(s: seq<ChunkPos>)
    ensures forall i, j :: 0 <= i < j < |RegionsOf(s)| ==> RegionsOf(s)[i] != RegionsOf(s)[j]
  {
    if s != [] {
      RegionsDistinct(s[..|s| - 1]);
    }
  }

  /** A list taken from an ascending stream is ascending. */
  lemma {:induction false} GroupSorted(s: seq<ChunkPos>, key: RegionPos)
    requires Sorted(s)
    ensures Sorted(GroupOf(s, key))
  {
    if s != [] {
      var init, last := s[..|s| - 1], s[|s| - 1];
      assert Sorted(init);
      GroupSorted(init, key);
      GroupMembers(init, key);
      if RegionOf(last) == key {
        forall x, y | x in GroupOf(init, key) && y in [last] ensures Less(x, y) {
          var i :| 0 <= i < |init| && init[i] == x;
        }
        SortedConcat(GroupOf(init, key), [last]);
      }
    }
  }

  /** One more chunk lengthens exactly the list of its region, when that
      region is among the keys. */
  lemma {:induction false} SumSizesSnoc(s: seq<ChunkPos>, c: ChunkPos, keys: seq<RegionPos>)
    requires forall i, j :: 0 <= i < j < |keys| ==> keys[i] != keys[j]
    ensures SumSizes(s + [c], keys) == SumSizes(s, keys) + (if RegionOf(c) in keys then 1 else 0)
  {
    assert (s + [c])[..|s|] == s;
    if keys != [] {
      var init := keys[..|keys| - 1];
      SumSizesSnoc(s, c, init);
      assert RegionOf(c) in keys <==> RegionOf(c) in init || RegionOf(c) == keys[|keys| - 1];
      if RegionOf(c) == keys[|keys| - 1] {
        assert RegionOf(c) !in init;
      }
    }
  }

  /** The lists together hold as many entries as chunks were visited. */
  lemma {:induction false} GroupSizes(s: seq<ChunkPos>)
    ensures SumSizes(s, RegionsOf(s)) == |s|
  {
    if s != [] {
      var init, last := s[..|s| - 1], s[|s| - 1];
      assert s == init + [last];
      GroupSizes(init);
      RegionsDistinct(init);
      SumSizesSnoc(init, last, RegionsOf(init));
      if RegionOf(last) !in RegionsOf(init) {
        GroupEmpty(init, RegionOf(last));
        assert RegionsOf(s) == RegionsOf(init) + [RegionOf(last)];
        assert RegionsOf(s)[..|RegionsOf(s)| - 1] == RegionsOf(init);
      }
    }
  }

  /** The partition of the search rectangle is exact: every chunk of the
      rectangle is under the key of its own region, in no other list and
      once only; no other chunk appears; every list is non-empty and
      ascending; and there are width times height entries in all. */
  lemma PartitionExact(b: ChunkRect, regions: map<RegionPos, seq<ChunkPos>>, order: seq<RegionPos>)
    requires Partitioned(regions, order, Rect(b))
    ensures forall c: ChunkPos :: b.xMin <= c.0 <= b.xMax && b.zMin <= c.1 <= b.zMax ==>
              RegionOf(c) in regions && c in regions[RegionOf(c)]
    ensures forall k, c :: k in regions && c in regions[k] ==>
              RegionOf(c) == k && b.xMin <= c.0 <= b.xMax && b.zMin <= c.1 <= b.zMax
    ensures forall k | k in regions :: regions[k] != [] && Sorted(regions[k])
    ensures SumSizes(Rect(b), order) == Width(b.xMin, b.xMax + 1) * Width(b.zMin, b.zMax + 1)
  {
    var s := Rect(b);
    RowsMembers(b, b.xMax + 1);
    RowsSize(b, b.xMax + 1);
    RowsSorted(b, b.xMax + 1);
    GroupSizes(s);
    forall c: ChunkPos | b.xMin <= c.0 <= b.xMax && b.zMin <= c.1 <= b.zMax
      ensures RegionOf(c) in regions && c in regions[RegionOf(c)]
    {
      GroupMembers(s, RegionOf(c));
      GroupEmpty(s, RegionOf(c));
    }
    forall k, c | k in regions && c in regions[k]
      ensures RegionOf(c) == k && b.xMin <= c.0 <= b.xMax && b.zMin <= c.1 <= b.zMax
    {
      GroupMembers(s, k);
    }
    forall k | k in regions ensures regions[k] != [] && Sorted(regions[k]) {
      GroupEmpty(s, k);
      GroupSorted(s, k);
    }
  }
}
