# PyBlock core in Dafny

This project models three parts of PyBlock, a Python toolkit for reading and editing Minecraft worlds.

**The Anvil region-file container (`pyblock/region.py`).** A region file is a byte string with three parts:
- a 4 KiB location header of 1024 four-byte slots, each a 3-byte big-endian sector offset and a 1-byte sector count;
- a 4 KiB timestamp table;
- chunk frames, each a 4-byte length, a compression byte and a payload, stored in 4096-byte sectors.

The model covers:
- `header_offset`, `chunk_location` and the framing half of `chunk_data`;
- the two writers `write` and `copy_chunks`, which rebuild the file slot by slot in z-major order;
- `read_chunks_to_copy`;
- the block folds `list_blocks_from_chunk`, `find_blocks_from_chunk`, `list_blocks` and `find_blocks`.

**The writable chunk (`pyblock/empty_chunk.py`).** `EmptyChunk` is a class with a 16-slot section array. The model covers:
- its constructor, `add_section`, `add_entities`, `add_tile_entities`, `get_block` and `set_block`;
- the frame that `get_data` builds around a compressed payload.

**The search tool (`bin/mcblock.py`).** The model covers:
- argument validation;
- the search box;
- the chunk rectangle around the centre block;
- the nested loop that groups the rectangle's chunks by region;
- the aggregation of per-region histograms, chunk counts and locations;
- the area and volume formulas.

## Structure

| file | module | what it holds |
|---|---|---|
| `errors.dfy` | `Errors` | The exceptions the core raises, plus `Result`, `Outcome` and `Option`. |
| `bytes.dfy` | `Bytes` | Bytes; `int.from_bytes` and `int.to_bytes` in big-endian order; Python's clamping slice. |
| `converter.dfy` | `Converter` | Block, chunk and region coordinates as floor division by 16, 32 and 512. |
| `histogram.dfy` | `Histogram` | Block histograms as maps, and their key-wise merge. |
| `region_file.dfy` | `RegionFile` | Reading the header and the frame of a chunk. |
| `region_write.dfy` | `RegionWrite` | The layout both writers produce, as a function `Assemble` of what each slot contributes, with its read-back lemmas. |
| `region_writers.dfy` | `RegionWriters` | The loops of `write`, `copy_chunks` and `read_chunks_to_copy`, each proved equal to its specification function. |
| `region_blocks.dfy` | `RegionBlocks` | The block histogram and block search over one chunk and over a list of chunks. |
| `empty_chunk.dfy` | `EmptyChunks` | The class `EmptyChunk` over an `array` of sections, and the frame from `get_data`. |
| `round_trip.dfy` | `RoundTrip` | The two files together: a frame from `get_data`, placed by `write`, reads back through `chunk_data` as its payload. |
| `partition.dfy` | `Partition` | The region partition loop of `mcblock.py` and its exactness. |
| `aggregate.dfy` | `Aggregate` | The aggregation loop of `mcblock.py` over region results. |
| `mcblock.dfy` | `McBlock` | Validation, the search box, the chunk bounds, the target regions, and the area and volume. |

Python exceptions are `Err` values of `Result` or `Fail` values of `Outcome`. An index outside a bytes object is `IndexError`: this covers a short header, or a frame that starts beyond the end of the file. A Python slice clamps to the data (`Bytes.Slice`), and the model keeps that behaviour.

Decompressing and parsing a chunk is left abstract. The payload-to-block stream step (zlib, NBT, `Chunk.stream_chunk`) is a function parameter that may fail on a corrupt payload, and its error ends the fold. `index_to_coord` is a function parameter too.

## Model

| member | source | states |
|---|---|---|
| RegionFile.HeaderOffset | pyblock/region.py:401-412 | The slot offset is a multiple of 4, at most 4092. |
| RegionFile.HeaderOffsetLocal | pyblock/region.py:412 | For local chunks 0..31 the offset is `4 * (cx + 32 * cz)`: z-major slot order. |
| RegionFile.HeaderOffsetOfSlot | pyblock/region.py:412 | Slot k of the z-major walk, chunk (k % 32, k / 32), has offset 4k. |
| RegionFile.HeaderOffsetInjective | pyblock/region.py:412 | Distinct local chunks own distinct slots. |
| RegionFile.HeaderOffsetPeriodic | pyblock/region.py:412 | Shifting either coordinate by a multiple of 32 leaves the slot unchanged. |
| RegionFile.ChunkLocation | pyblock/region.py:414-431 | Reading fails with IndexError exactly when the header is too short for the count byte. The offset is below 2^24 and the count below 256. |
| RegionFile.ChunkLocationOfEntry | pyblock/region.py:428-431 | An entry `offset.to_bytes(3) + [sectors]` reads back as exactly that location. |
| RegionFile.ChunkLocationOfZeros | pyblock/region.py:419-431 | A zero entry reads back as (0, 0), "not generated". |
| RegionFile.ReadFrame | pyblock/region.py:453-458 | IndexError exactly when the compression byte lies past the data; GZipChunkData exactly when that byte is 1; no other error. Otherwise the payload is the clamped slice of `length - 1` bytes from `start + 5`, where length is the 4-byte big-endian prefix. |
| RegionFile.ChunkData | pyblock/region.py:433-458 | A location error gives IndexError. It returns None exactly for a (0, 0) location; otherwise it gives the frame at byte `offset * 4096`, with that frame's error or payload. |
| RegionWrite.CeilSectors | pyblock/region.py:217 | The result is the least r with `4096 * r >= n`, which is `math.ceil(n / 4096)`. |
| RegionWrite.EncodeLocation | pyblock/region.py:222-227 | Every header entry is four bytes. |
| RegionWrite.HeaderBytes | pyblock/region.py:183-227 | The header is four bytes per slot. |
| RegionWrite.HeaderBytesAt | pyblock/region.py:222-227 | The entry of slot k lies at bytes 4k..4k+4 of the header. |
| RegionWrite.WalkErrorSticks | pyblock/region.py:194-230 | Once a slot raised, the whole loop ends with that error. |
| RegionWrite.WalkShape | pyblock/region.py:191-230 | After k slots there is one location per slot, every slot was readable, and `sector_offset` is 2 plus the sectors recorded. |
| RegionWrite.WalkExtends | pyblock/region.py:207-227 | Each step only appends to the chunk bytes and the locations. |
| RegionWrite.WalkRecorded | pyblock/region.py:191-230 | Slot j is recorded at 2 plus the sectors of all earlier slots, with its own count. A slot with no sectors is recorded as (0, 0). |
| RegionWrite.WalkFits | pyblock/region.py:225-227 | Every location of a successful walk fits its 3-byte and 1-byte fields. |
| RegionWrite.WalkNextBound | pyblock/region.py:230 | After k slots `sector_offset` is at most 2 + 255k. |
| RegionWrite.StepFailsOnlyOnSectorCount | pyblock/region.py:225-227 | Within 1024 slots the offset never overflows: a step raises OverflowError exactly when its count exceeds 255. |
| RegionWrite.WalkSucceeds | pyblock/region.py:194-230 | Over readable slots the loop succeeds if and only if every slot needs at most 255 sectors. |
| RegionWrite.WalkChunksAligned | pyblock/region.py:207-216 | With sector-aligned slots the chunk bytes span exactly the recorded sectors. |
| RegionWrite.PrefixAlignedChunks | pyblock/region.py:191-230 | With aligned slots the chunk bytes end exactly at sector `sector_offset`. |
| RegionWrite.WalkStep | pyblock/region.py:207-230 | One iteration appends the slot's bytes, adds its sectors, and records its location at the old `sector_offset`. |
| RegionWrite.WalkSlotLocation | pyblock/region.py:222-230 | Slot k's location is recorded at the `sector_offset` reached before it. |
| RegionWrite.WalkSlotBytes | pyblock/region.py:207-216 | Slot k's bytes sit in the chunk area right after those of the slots before it. |
| RegionWrite.EncodedReadsBack | pyblock/region.py:428-431 | An entry the writer emits reads back through `chunk_location` as the location it encodes. |
| RegionWrite.AssembleParts | pyblock/region.py:233-234 | The file is header, timestamps and chunk bytes, and passes the length assertion. |
| RegionWrite.AssembleLocations | pyblock/region.py:194-230 | `chunk_location` on the assembled file gives each local chunk the location the walk recorded for its slot. |
| RegionWrite.AssembleShape | pyblock/region.py:184-234 | The file is whole sectors, at least two, and its timestamp table is all zeros. |
| RegionWrite.HeaderReadsBack | pyblock/region.py:414-431 | A header of recorded locations, followed by anything, reads back slot by slot. |
| RegionWrite.TimestampsZero | pyblock/region.py:184-233 | Bytes 4096..8191 of the file are zero. |
| RegionWrite.AssembleChunkBytes | pyblock/region.py:205-233 | With aligned slots, the sector range a slot's location names holds exactly that slot's bytes. |
| RegionWrite.AssembleAligned | pyblock/region.py:233-234 | When every slot is aligned the assertion holds, and the file is 2 plus the recorded sectors, in sectors. |
| RegionWrite.SectorsAtSlot | pyblock/region.py:428-430 | The count byte of slot j is the count `chunk_location` reads for chunk (j % 32, j / 32). |
| RegionWrite.AssemblePacked | pyblock/region.py:191-230 | The counts the new header gives the first k slots add up to the sectors the walk recorded for them. |
| RegionWrite.AssembleSlot | pyblock/region.py:199-234 | Each local chunk reads back with its slot's count. It is (0, 0) exactly when that count is 0; otherwise it starts at 2 plus the counts the header gives all earlier slots. The file is whole sectors and the timestamps are zero. |
| RegionWrite.AssembleRecorded | pyblock/region.py:222-230 | The header entry of a chunk is the location recorded at 2 plus the earlier counts. |
| RegionWrite.AssembleSlotBytes | pyblock/region.py:205-216 | With aligned slots, the range the new header names holds exactly the slot's bytes. |
| RegionWriters.SlotCoordinates | pyblock/region.py:194-196 | Slot `cx + 32 * cz` is visited as chunk (cx, cz). |
| RegionWriters.WriteSlots | pyblock/region.py:194-196 | The plan of `write` has 1024 slots. |
| RegionWriters.WriteSlotsAt | pyblock/region.py:194-219 | Slot `cx + 32 * cz` of the plan is chunk (cx, cz)'s contribution. |
| RegionWriters.AdvanceWalk | pyblock/region.py:216-230 | A slot that fits extends the chunk bytes, the counter and the header by its entry. |
| RegionWriters.OverflowAt | pyblock/region.py:225-227 | A start or count that does not fit its entry fails the file with OverflowError. |
| RegionWriters.SlotFailsAt | pyblock/region.py:199 | A slot whose location cannot be read fails the file with that error. |
| RegionWriters.Write | pyblock/region.py:175-234 | The `write` loop returns exactly `Assemble` of its plan: the file it would write, or the exception it raises. |
| RegionWriters.CopySlots | pyblock/region.py:292-294 | The plan of `copy_chunks` has 1024 slots. |
| RegionWriters.CopySlotsAt | pyblock/region.py:292-337 | Slot `cx + 32 * cz` of the plan is chunk (cx, cz)'s contribution. |
| RegionWriters.CopyChunks | pyblock/region.py:273-351 | The `copy_chunks` loop returns exactly `Assemble` of its plan. |
| RegionWriters.CopyUpdate | pyblock/region.py:252-269 | A missing file or a short header fails. When the source chunk is (0, 0) the entry is the sentinel 0, and only then; otherwise it is the source's sector range. |
| RegionWriters.ReadChunksToCopy | pyblock/region.py:241-271 | Reads from the folder `world_source`. It succeeds exactly when every source can be read. It then has exactly the destination keys, each mapped to its source's update. A failure is the error of some failing source. |
| RegionWriters.KeptAligned | pyblock/region.py:205-207 | An old sector range inside the file fills exactly its sectors. |
| RegionWriters.WriteNeedsHeader | pyblock/region.py:199 | `write` fails unless the old file holds a full header. |
| RegionWriters.WriteSlotsAligned | pyblock/region.py:205-217 | When kept ranges lie inside the file and replacements are whole sectors, every slot is readable and aligned. |
| RegionWriters.WriteReadsBack | pyblock/region.py:175-234 | Round trip of `write`'s header. An untouched chunk keeps its count; a chunk updated with 0 is (0, 0); a replaced chunk takes `ceil(len / 4096)` sectors. An entry is (0, 0) exactly when it has no sectors, and otherwise starts at 2 plus all earlier counts. The file is whole sectors, with zero timestamps. |
| RegionWriters.WriteChunkBytes | pyblock/region.py:201-219 | Under alignment, the range the new header names holds the old bytes of an untouched chunk and the new bytes of a replaced one. |
| RegionWriters.WriteSucceeds | pyblock/region.py:217-234 | With a full header, aligned chunks and replacements of at most 255 sectors, `write` succeeds. The file is then exactly the header sectors plus the sectors its header gives. |
| RegionWriters.CopyReadsBack | pyblock/region.py:273-351 | Round trip of `copy_chunks`' header. A copied chunk takes its source's count, so a missing source chunk gives none; every other chunk keeps its own. The entries are packed as in `write`. |
| RegionWriters.CopySlotsAligned | pyblock/region.py:320-336 | When every range read lies inside its file, every slot of a successful copy is aligned. |
| RegionWriters.CopyChunkBytes | pyblock/region.py:320-336 | A copied chunk's new range holds the source chunk's bytes verbatim; any other chunk's holds its own. |
| RegionWriters.CopySlotIsWriteSlot | pyblock/region.py:295-336 | Per slot, copying equals writing the update `read_chunks_to_copy` reads from `world_source`, provided the source region file is the same in `world_source` and in the folder `copy_chunks` opens (`self.path`, line 316), and it is complete. |
| RegionWriters.CopyIsWriteOfRead | pyblock/region.py:273-351 | `copy_chunks` builds the same file as `write` given the updates `read_chunks_to_copy` reads from `world_source` (line 258). This holds provided every source region file is the same there and in the folder `copy_chunks` opens (`self.path`, line 316), and every source is complete. |
| RegionBlocks.CountBlocks | pyblock/region.py:55-60 | The counting loop yields the histogram of the block stream. |
| RegionBlocks.ListBlocksFromChunk | pyblock/region.py:42-61 | The chunk's histogram, `{}` for a chunk not generated, or the error that reading or decoding it raised. |
| RegionBlocks.BlocksStep | pyblock/region.py:99-103 | One more chunk appends its stream, or its error ends the fold. |
| RegionBlocks.BlocksFailFrom | pyblock/region.py:100-102 | Once a chunk failed, the whole list fails with its error. |
| RegionBlocks.ListBlocks | pyblock/region.py:93-103 | `list_blocks` is the histogram of all the listed chunks' blocks, or the first error. |
| RegionBlocks.MatchesExact | pyblock/region.py:87-88 | The matching indices are exactly those holding the name, in ascending order. |
| RegionBlocks.MatchesCount | pyblock/region.py:87-88 | There are as many matches as occurrences of the name. |
| RegionBlocks.FoundAtMatches | pyblock/region.py:87-90 | The j-th location found is the j-th match's coordinates, shifted by the chunk's base. |
| RegionBlocks.CollectBlocks | pyblock/region.py:86-91 | The search loop yields exactly the found locations, in order. |
| RegionBlocks.FindBlocksFromChunk | pyblock/region.py:63-91 | The chunk's matches at `x * 512 + 16 * cx`, `z * 512 + 16 * cz`; `[]` for a chunk not generated; or the error that reading or decoding it raised. |
| RegionBlocks.FoundStep | pyblock/region.py:113-114 | One more chunk extends the locations, or its error ends the fold. |
| RegionBlocks.FoundFailFrom | pyblock/region.py:113-114 | Once a chunk failed, the whole list fails with its error. |
| RegionBlocks.FindBlocks | pyblock/region.py:105-115 | `find_blocks` is the chunks' locations one after another, or the first error. |
| RegionBlocks.FindMatchesList | pyblock/region.py:93-115 | `find_blocks` fails exactly when `list_blocks` does. Its result lists one location per occurrence of the name, as many as the histogram counts. |
| EmptyChunks.ListIndex | pyblock/empty_chunk.py:49-51 | A Python list index is valid exactly in -n..n-1 and names the slot congruent to it modulo n. |
| EmptyChunks.EmptyChunk.constructor | pyblock/empty_chunk.py:25-31 | 16 empty section slots, version 1976, no entities and no tile entities. |
| EmptyChunks.EmptyChunk.AddSection | pyblock/empty_chunk.py:33-51 | The section array becomes `AddSectionTo` of the old one. On a raise (EmptySectionAlreadyExists, or IndexError for a bad Y) it is unchanged. |
| EmptyChunks.AddSectionPlaces | pyblock/empty_chunk.py:49-51 | IndexError exactly for a bad Y. It raises exactly when the slot is taken and replace is false. Otherwise the section goes into slot `section.y` and no other slot changes. |
| EmptyChunks.EmptyChunk.AddEntities | pyblock/empty_chunk.py:53-54 | Stores the value given, None included, and changes nothing else. |
| EmptyChunks.EmptyChunk.AddTileEntities | pyblock/empty_chunk.py:56-57 | Stores the value given, None included, and changes nothing else. |
| EmptyChunks.EmptyChunk.GetBlock | pyblock/empty_chunk.py:59-90 | The result is `BlockAt` of the sections: OutOfBoundsCoordinates outside 0..15 / 0..255 / 0..15; None for an empty section; otherwise the section's block at (x, y % 16, z). |
| EmptyChunks.EmptyChunk.SetBlock | pyblock/empty_chunk.py:92-119 | Out of bounds it raises and changes nothing. Otherwise the sections become `BlockSet` of the old ones. |
| EmptyChunks.FreshChunkEmpty | pyblock/empty_chunk.py:25-31 | A fresh chunk answers None for every position in bounds. |
| EmptyChunks.SetThenGet | pyblock/empty_chunk.py:92-119 | Reading a block just set gives it back; every other position reads as before. |
| EmptyChunks.SetBlockFrame | pyblock/empty_chunk.py:115-119 | Only slot `y // 16` changes. A section is created there only when the slot was empty, with index `y // 16` and just the new block. |
| EmptyChunks.GetData | pyblock/empty_chunk.py:135-144 | It raises OverflowError exactly when `len + 1` does not fit 4 bytes. Otherwise the frame is a whole number of sectors. |
| EmptyChunks.PaddedToSector | pyblock/empty_chunk.py:143-144 | Padding by `4096 - n % 4096` reaches a multiple of 4096. |
| EmptyChunks.FrameLayout | pyblock/empty_chunk.py:135-143 | The frame is the length `len + 1` big-endian, byte 2, the payload, then 1 to 4096 zero bytes. |
| RoundTrip.CeilSectorsExact | pyblock/region.py:217 | An aligned length occupies exactly its sectors. |
| RoundTrip.FrameReadsBack | pyblock/region.py:453-458 | A `get_data` frame stored at any byte reads back through the frame reader as its payload. |
| RoundTrip.WindowsAgree | pyblock/region.py:453-458 | Equal windows agree on every sub-window. |
| RoundTrip.HeadsAgree | pyblock/region.py:454-455 | Equal windows agree on the length prefix and the compression byte. |
| RoundTrip.PayloadsAgree | pyblock/region.py:458 | Equal windows agree on a payload that ends inside them. |
| RoundTrip.ReadFrameAlike | pyblock/region.py:453-458 | Frames with the same prefix, compression byte and payload read alike. |
| RoundTrip.SameWindowSameFrame | pyblock/region.py:453-458 | The same bytes at two starts read back the same frame, when the frame ends inside them. |
| RoundTrip.WriteThenRead | pyblock/region.py:433-458 | A chunk replaced by a `get_data` frame reads back from the file `write` builds as exactly its payload. |
| RoundTrip.SameRangeSameData | pyblock/region.py:449-458 | Two chunks with equal sector ranges, whose frame ends inside them, read back alike. |
| RoundTrip.WriteKeepsChunk | pyblock/region.py:201-210 | A chunk `write` leaves alone, with its frame inside its sectors, reads back from the new file exactly as from the old. |
| Converter.BlockToChunk | bin/mcblock.py:75-83 | Call site of the converter (converter.py is not part of this model): the chunk of a block is the c with `16c <= x < 16c + 16` on each axis, negative blocks included. |
| Converter.ChunkToRegion | bin/mcblock.py:99 | Call site of the converter (converter.py is not part of this model): the region of a chunk is the r with `32r <= cx < 32r + 32`. |
| Converter.BlockToRegion | bin/mcblock.py:74 | Call site of the converter (converter.py is not part of this model): the region of a block is the r with `512r <= x < 512r + 512`. |
| Converter.ChunkToBlock | bin/mcblock.py:85-88 | Call site of the converter (converter.py is not part of this model): a chunk's block range is 16 wide and holds exactly the blocks mapping to that chunk. |
| Converter.RegionToBlock | pyblock/region.py:82-83 | Call site of the converter (converter.py is not part of this model): a region's block range is 512 wide and holds exactly the blocks mapping to that region. |
| Converter.ChunkThenRegion | bin/mcblock.py:74-75 | Block to chunk to region is block to region. |
| Converter.ChunkRangeContainsBlock | bin/mcblock.py:80-88 | A block lies in its chunk's block range. |
| Converter.LocalChunkBase | pyblock/region.py:82-83 | Local chunk (cx, cz) of a region starts at block `x * 512 + 16 * cx`, `z * 512 + 16 * cz`. |
| Converter.NegativeCoordinates | bin/mcblock.py:74-75 | Block -1 lies in chunk -1 and region -1 (floor division). |
| Histogram.Merge | bin/mcblock.py:130-134 | The merged keys are the keys of both histograms. |
| Histogram.MergeGet | bin/mcblock.py:130-134 | The merged count of a key is the sum of its two counts. |
| Histogram.HistogramGet | pyblock/region.py:55-60 | A stream's histogram has exactly the stream's ids as keys, each counted by its multiplicity. |
| Histogram.MergeCommutes | pyblock/region.py:102 | Merging is commutative. |
| Histogram.MergeAssociates | pyblock/region.py:99-103 | Merging is associative. |
| Histogram.MergeEmpty | pyblock/region.py:99 | `{}` is the unit of merging. |
| Histogram.HistogramConcat | pyblock/region.py:99-103 | The histogram of two streams together is the merge of their histograms. |
| Histogram.HistogramSnoc | pyblock/region.py:57-60 | One more block adds one to its count. |
| Histogram.TotalRemove | bin/mcblock.py:155 | The total of a histogram is one key's count plus the total of the rest. |
| Histogram.TotalSplit | bin/mcblock.py:155 | The same, for a key that may be absent. |
| Histogram.MergeRemove | bin/mcblock.py:130-134 | Removing a key commutes with merging. |
| Histogram.TotalMerge | bin/mcblock.py:128-134 | The total of a merge is the sum of the totals. |
| Histogram.TotalHistogram | pyblock/region.py:55-60 | A stream's histogram totals its length. |
| Partition.PartitionStep | bin/mcblock.py:99-103 | One append, or one new list, keeps the dictionary partitioned by region over the chunks visited, keys in insertion order. |
| Partition.AddChunk | bin/mcblock.py:99-103 | The loop body keeps the dictionary partitioned over one more chunk. |
| Partition.PartitionColumn | bin/mcblock.py:94-103 | The inner loop adds the column cx, z ascending. |
| Partition.ColumnDone | bin/mcblock.py:93-94 | A finished column completes the next row. |
| Partition.ColumnSnoc | bin/mcblock.py:94 | One more z extends the column. |
| Partition.PartitionChunks | bin/mcblock.py:92-103 | The nested loop partitions the rectangle's chunks, x outer and z inner, by their region. |
| Partition.ColumnAt | bin/mcblock.py:94 | A column holds `z_max - z_min + 1` chunks, z ascending. |
| Partition.ColumnMembers | bin/mcblock.py:94 | A column holds exactly the chunks of its x between its z bounds. |
| Partition.RowsMembers | bin/mcblock.py:93-94 | The visited chunks are exactly those of the rectangle so far. |
| Partition.RowsSize | bin/mcblock.py:93-94 | The loop visits width times height chunks. |
| Partition.SortedConcat | bin/mcblock.py:93-94 | Sorted lists, one entirely below the other, concatenate sorted. |
| Partition.RowsSorted | bin/mcblock.py:93-94 | The loop visits chunks in strictly ascending (cx, cz) order. |
| Partition.GroupMembers | bin/mcblock.py:100-103 | A region's list holds exactly the visited chunks of that region. |
| Partition.GroupEmpty | bin/mcblock.py:100-103 | A region is a key exactly when its list is non-empty. |
| Partition.RegionsDistinct | bin/mcblock.py:100-103 | No region is inserted twice. |
| Partition.GroupSorted | bin/mcblock.py:101 | A sorted visit gives sorted lists. |
| Partition.SumSizesSnoc | bin/mcblock.py:101-103 | One more chunk adds one entry under its region. |
| Partition.GroupSizes | bin/mcblock.py:100-103 | The lists hold as many entries as chunks were visited. |
| Partition.PartitionExact | bin/mcblock.py:92-103 | Every chunk of the rectangle is under its own region's key, and no other chunk appears. Every list is non-empty and ascending. There are `(cx_max - cx_min + 1) * (cz_max - cz_min + 1)` entries in all. |
| Aggregate.PartlyMergedStep | bin/mcblock.py:130-134 | Adding one key's count keeps the partial merge. |
| Aggregate.PartlyMergedDone | bin/mcblock.py:130-134 | Once every key is added, the running histogram is the merge. |
| Aggregate.MergeInto | bin/mcblock.py:128-134 | The inner loop merges a region's histogram into the running one. |
| Aggregate.Aggregate | bin/mcblock.py:111-138 | The chunk count is the sum of the regions' counts. With `--list` the histogram is the merge of all regions', otherwise empty. With `--find` the locations are the regions' lists in region order, otherwise empty. |
| Aggregate.SumValues | bin/mcblock.py:155 | `sum(blocks.values())` is the histogram's total. |
| Aggregate.MergeAllCounts | bin/mcblock.py:128-134 | The merged count of a block is the sum of its counts over the regions. A block is a key exactly when some region saw it. |
| Aggregate.MergeAllTotal | bin/mcblock.py:128-155 | The total printed is the sum of the regions' totals. |
| Aggregate.MergeAllOfStreams | bin/mcblock.py:128-134 | When each region histogram counts a stream of blocks, the merged one counts all the streams together. |
| Aggregate.StreamsTotal | bin/mcblock.py:155 | Under the same condition, the total is the number of blocks seen. |
| Aggregate.AllLocationsMembers | bin/mcblock.py:136-138 | A location is reported exactly when some region reported it. |
| McBlock.Validate | bin/mcblock.py:38-51 | It succeeds exactly when there is a world path, the radius is non-zero, a target is given and the radius is at most 200. The world path comes from `MINECRAFTWORLD` first, then from `--world`. |
| McBlock.ValidateFirstFailure | bin/mcblock.py:38-51 | The first failing check, in source order, decides the error. |
| McBlock.SearchArea | bin/mcblock.py:53-63 | There is no area exactly in region mode. |
| McBlock.SearchAreaContains | bin/mcblock.py:57-63 | The box holds each coordinate within r of the centre. In vertical mode y runs from -1 to 256. |
| McBlock.SearchAreaCentre | bin/mcblock.py:57-63 | For r >= 0 the box contains the centre, and in vertical mode every height 0..255 above it. |
| McBlock.ChunkBounds | bin/mcblock.py:80-83 | For r >= 0, `cx_min <= cx_max` and `cz_min <= cz_max`. |
| McBlock.ChunkBoundsCover | bin/mcblock.py:80-83 | The rectangle is the least one covering the radius on each axis. |
| McBlock.BlockBoundsCover | bin/mcblock.py:85-88 | The block edges are whole chunks: they contain the radius and reach under 16 blocks beyond it. |
| McBlock.Targets | bin/mcblock.py:66-103 | Region mode gives `{(rx, rz): 'all'}`. Otherwise it gives the partition of the chunk rectangle, with keys in insertion order. |
| McBlock.RegionArea | bin/mcblock.py:142-144 | Region mode gives 262144 square blocks, the region's extent, and 67108864 cubic blocks. |
| McBlock.BoxArea | bin/mcblock.py:146-150 | The square is the product of the box's horizontal sides `hi - lo = 2r`. The cube is that times `2r` outside vertical mode and 256 times it in vertical mode. The inclusive box itself holds `(2r + 1)^2` columns, `4r + 1` more than the square, and in vertical mode 258 heights. |
| McBlock.DefaultRadiusArea | bin/mcblock.py:146-150 | r = 10 gives 400 and 8000. |

## Left out

- File I/O is not modelled. Opening a region (`Region.__init__`), writing the new file, and constructing source regions are absent. A region is its content, a world is a map from region coordinates to contents, and a missing file is `FileNotFound`.
- zlib compression, NBT encoding and decoding, `EmptyChunk.save`, `Chunk`, `stream_chunk` and `index_to_coord` belong to other modules or libraries. Payloads are opaque bytes. Decoding is a parameter that returns blocks or an error, and coordinates are a parameter too.
- `EmptySection` is not part of this model. A section is a value holding its Y index and a map from local positions to blocks.
- `parsemca.MCA` is not part of this model. What a region yields (chunk count, histogram, locations) is a parameter of the aggregation.
- The converter module is not part of this model. It is defined by floor division, as its use at `pyblock/region.py:82-83` implies.
- `combine_dicts` is not part of this model. It is taken to be the key-wise sum that `mcblock.py` writes out inline.
- `set_blocks_for_map`, `update_chunks`, `copy_chunk`, `get_chunk`, `from_file`, `get_locations` and `get_timestamps` are outside the modelled core. Some are broken or depend on unseen classes; the rest are thin wrappers.
- Argument parsing, logging, printing, and the floating-point density figure of `mcblock.py` are not modelled.
- `--region` arguments are integers here. Python keeps them as strings, which are only used to name the file.
- Section truthiness (`if self.sections[...]`) is modelled as "slot holds a section".
- Dictionary iteration order is a separate key sequence (`order`) beside each dictionary.
- RegionWriters.Write: the nested 32×32 loop is one loop over the 1024 slots, with chunk (k % 32, k / 32). The slot order, z outer and x inner, is the same.
- RegionWriters.CopyChunks: the nested loop is one loop over the slots, as in `Write`.
- RegionWriters.ReadChunksToCopy: the dictionary's iteration order is not modelled. When several sources fail, the error returned is that of some failing source, not necessarily the first in insertion order.
- RegionWriters.CopyIsWriteOfRead is stated only when the two folders hold the same source files. `read_chunks_to_copy` opens `world_source` (pyblock/region.py:258), but `copy_chunks` opens the destination's own `self.path` (pyblock/region.py:316). It also needs complete sources: for a source file shorter than its header claims, `write` records the sectors the truncated bytes need, while `copy_chunks` records the header's count.
- RegionWriters.CopySlotIsWriteSlot: the same condition per slot. The source region file must be the same in `world_source` and in `self.path`, and complete.
- RoundTrip.WriteKeepsChunk requires the old frame to lie inside its sectors. A kept chunk whose length field points beyond its sectors reads different bytes once the chunks are repacked.
- Bytes.ToBigEndian keeps the low-order bytes. The writers and `get_data` check for overflow before encoding, as `int.to_bytes` does.
- EmptyChunks.EmptyChunk.SetBlock: the source mutates the section object it stored, through aliasing. The model computes the updated section value and stores it back in the same slot.
- McBlock.Validate follows the code: the limit is 200, although the message says "below 50". A negative radius passes, as in the code.
- McBlock.BoxArea: the formula at bin/mcblock.py:146-150 is modelled as written. It counts each side as `hi - lo = 2r`, one less than the `2r + 1` blocks per side the inclusive box holds. In vertical mode it uses height 256, while the box runs from -1 to 256, which is 258 heights. The lemma states both the formula and the box's actual counts.


