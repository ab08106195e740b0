# Verified model of the gradients data pipeline, memory probe and tools

The project models the parts of the repository that are arithmetic, state or parsing, and proves what they
keep.

- **Packing** (`Packing`, `RangePacking`, `RowContents`, `Parallel`, `ParallelJob`, `Segments`, `Compact`): the
  streaming packer, the range packer, the planner that splits a job between workers, and the two sample forms. The
  main theorem is that packing in parallel gives exactly the rows of packing sequentially.
- **GDDS shards** (`Gdds*`, `ShardFit`, `ShardSize`, `RangeWorker`, `RowReader`): the encoder, the independently
  written reader, the mutable writers, greedy splitting, and the size prediction. Files are byte sequences.
- **Memory probe** (`Arenas`, `Rings`, `Scopes`, `Context`, `StateObjects`, `StateBuffers`, `Tensors`,
  `TensorAlloc`, `Glob`, `Params`, `ParamWalk`): bump arenas with generations, fenced rings, the scope protocol, state
  objects, strided views, and the collection of parameters. Classes follow the C structs; each method is proved
  equal to one step of a specification over values, and the whole-run theorems are about that specification.
- **Tokenizer tool** (`Json*`, `Utf8`, `Tok*`): the JSON printer, parser, skipper and field extractor, the sharded
  corpus writer and its reader.
- **Registry and configuration** (`Registry*`, `Config*`, `Ctype`): operation ids through generated headers, and
  the flat configuration reader.

`Arith`, `Bytes`, `Seqs` and `Decimal` hold shared arithmetic, byte codecs, sequences and numerals.
`dafny verify dfyconfig.toml` checks everything.

## Model

| member | source | states |
|---|---|---|
| `Packing.PackStream` | tools/data_fineweb2.py:2031-2073 | The streaming packer raises exactly for a context below 2 or a negative limit; otherwise it yields exactly the first overlapping windows of the document stream with their document run lengths, all that fit or as many as the limit asks for. |
| `Packing.CapacityCountsWindows` | tools/data_fineweb2.py:1861-1867 | The closed capacity formula equals the number of windows counted by sliding one stride at a time. |
| `Segments.SegmentLengthsCover` | tools/data_fineweb2.py:2151-2168 | Run lengths are positive and add up to the length of the row. |
| `Segments.SegmentsStartAtChanges` | tools/data_fineweb2.py:2151-2168 | A position starts a segment if and only if the document id changes there. |
| `Packing.NumberingsSamePattern` | tools/data_fineweb2.py:2056-2148 | Counting or skipping empty documents numbers documents differently but changes at the same positions, so both packers label rows alike. |
| `RowContents.RowExact` | tools/data_fineweb2.py:2031-2168 | Row i of a range holds the c + 1 tokens of the stream from (lo + i) * c on; its run lengths are positive and cover the context; and a new run starts at a token exactly where a non-empty document does. |
| `RangePacking.PackRange` | tools/data_fineweb2.py:2076-2148 | The range packer, reading shards with clipping and skipping, yields exactly the rows of the same stream from its start on, and underflows exactly when the stream is too short. |
| `Parallel.PlanRanges` | tools/data_fineweb2.py:1879-1904 | The ranges tile the job in order without gap or overlap; all but the last have exactly the balanced size for the worker count, none exceeds the per-shard maximum, and there are at most as many as shards are asked for. |
| `Parallel.PerShardFits` | tools/data_fineweb2.py:1890-1897 | The balanced size is the least one with which the asked number of shards holds every sample, and it respects the size limit. |
| `Parallel.MaxSamplesExact` | tools/data_fineweb2.py:1870-1891 | A record counts for four bytes per token and 514 more, but at least 16 KiB; a shard gets the most samples whose estimates fit it, but at least one. |
| `Parallel.ShardCountExact` | tools/data_fineweb2.py:1892-1893 | There are as few shards as hold all samples and keep one to four workers busy. |
| `Parallel.PlanRowsAreStreamRows` | tools/data_fineweb2.py:1879-1961 | For any plan that tiles the job, the rows of its ranges joined are exactly the first rows of the sequential packer. |
| `Parallel.SortRestores` | tools/data_fineweb2.py:1907-1961 | Whatever the completion order, sorting by name restores the plan order whenever plan order is name order. |
| `Parallel.NameOrderExact` | tools/data_fineweb2.py:1964-2012 | Names with five-digit shard numbers sort like the numbers if and only if there are at most 100000 shards. |
| `Parallel.SortedIsPlanExactly` | tools/data_fineweb2.py:1907-1961 | Sorting the finished shards by name returns the plan order if and only if there are at most 100000 shards. |
| `ParallelJob.WriteSplitParallel` | tools/data_fineweb2.py:1907-1961 | The whole job, workers and files included: with 16-bit tokens, no one-token document and a limit of at least the estimate plus 215 it succeeds and every file keeps the limit; when it succeeds, the file of every range reads back as exactly its rows, number by number, the shards are in plan order exactly up to 100000 of them, and their rows are then the first rows of the sequential packer. |
| `ParallelJob.OneMoreFile` | tools/data_fineweb2.py:1964-1980 | In whatever order the workers finish, a new file never overwrites that of another range. |
| `Parallel.NamesDiffer` | tools/data_fineweb2.py:1980-1980 | Different shard numbers give different file names, beyond five digits as well. |
| `ShardFit.RecordSize` | tools/data_fineweb2.py:2344-2350 | A packed row is encoded in exactly 196 bytes plus two per token and four per segment. |
| `ShardFit.FewSegments` | tools/data_fineweb2.py:2151-2168 | When no document is one token long, a row of context c has at most c/2 + 1 segments. |
| `ShardFit.PlannedShardFits` | tools/data_fineweb2.py:1870-1904 | When no document is one token long and the limit is at least the row estimate plus 215 bytes, the file of every range that can be planned stays within the limit. |
| `ShardSize.SegmentsExact` | tools/data_fineweb2.py:2151-2168 | The segments of a range are one per row and one per non-empty document that starts behind the first token of a row. |
| `ShardSize.ShardFitsExactly` | tools/data_fineweb2.py:1870-1904 | The exact file size of a range is a function of the number of its rows and of how many documents start inside them, so it fits if and only if that size does. |
| `ShardFit.SinglesOverflow` | tools/data_fineweb2.py:1870-1904 | 32769 one-token documents at context 16384 with one worker and a limit of 132100, twice the estimate: the planner makes one shard of the two rows, and its file needs 197536 bytes. |
| `RangeWorker.WriteRange` | tools/data_fineweb2.py:1964-2012 | Whatever is written holds exactly the encodings of the rows of the range, and a file below 2^64 bytes reads back as them; with 16-bit tokens, no one-token document, a limit of at least the estimate plus 215 and a positive batch size, a planned range is always written and its file stays within the limit. |
| `RowReader.RecordHoldsRow` | tools/data_fineweb2.py:2344-2350 | The record of a row holds two vectors: token k of the row in the two bytes at 2k of the first, run length k in the four bytes at 4k of the second. |
| `RowReader.FileHoldsRows` | tools/data_fineweb2.py:1964-2012 | The independent reader opens the file of a range and finds one record for each row, in order, with exactly its tokens and run lengths. |
| `Bytes.PackAt` | tools/data_fineweb2.py:2344-2350 | Number i of a packed array stands at i times the width, whole. |
| `Bytes.LEFour` | tools/gdds_utils.py:529-542 | Numbers are stored least significant byte first. |
| `Compact.IterLmSamples` | examples/gpt_lm/dataset_ita_dict.py:461-515 | The expanded samples are the windows of the stream with positions counted from the last document change and targets masked across documents. |
| `Compact.IterCompactLmSamples` | examples/gpt_lm/dataset_ita_dict_v2.py:933-994 | The compact samples are exactly the rows of the streaming packer over the same sequences; it raises exactly for a context below 2 or a row with a token outside 0..65535, and what was yielded before that is a prefix of the rows. |
| `Compact.CompactKeeps` | examples/gpt_lm/dataset_ita_dict_v2.py:967-994 | Inputs, positions, segment lengths and every target but the last of the expanded sample are recovered from the compact row alone. |
| `Compact.MaskedExactly` | examples/gpt_lm/dataset_ita_dict.py:502-513 | A target other than the last is masked if and only if its position is the last of a segment that is not the final one. |
| `Compact.LastTargetOpen` | examples/gpt_lm/dataset_ita_dict_v2.py:967-994 | For every window whose last token is not the mask value there is one with the same compact row and another last target. |
| `Compact.DeterminedExact` | examples/gpt_lm/dataset_ita_dict_v2.py:967-994 | The compact row determines a target of the expanded sample if and only if it is not the last one, or the last token is the mask value itself. |
| `Compact.LastTargetLost` | examples/gpt_lm/dataset_ita_dict_v2.py:967-994 | An instance: two windows of three tokens with the same compact row differ in their last target. |
| `GddsSchema.FlagsUnpack` | tools/gdds_utils.py:149-158 | Collation, generator, ragged dimension and source field can be read back from the packed flags, which fit their slot. |
| `GddsFormat.DtypeCodes` | tools/gdds_utils.py:43-59 | The type codes and element sizes by name. |
| `GddsFormat.FlagsExact` | tools/gdds_utils.py:61-74 | The packed flags name the collation and the generator of the field, its ragged dimension, and the place of its source field. |
| `GddsFormat.PadValueReads` | tools/gdds_utils.py:529-542 | The pad value stands in the slot that the reader skips. |
| `GddsSchema.EncodeSchema` | tools/gdds_utils.py:529-542 | The schema bytes hold every field descriptor at its place. |
| `GddsSchema.NameRoundTrip` | tools/gpt_lm_bigram_probe.py:66-72 | A zero-padded field name is read back if and only if it contains no NUL. |
| `GddsSchema.SchemaRoundTrip` | tools/gpt_lm_bigram_probe.py:56-73 | The reader recovers every field of an encoded schema. |
| `GddsFormat.OpensExact` | tools/gpt_lm_bigram_probe.py:56-73 | A file opens if and only if it has a whole header with the magic, version 1 and a header size of 128, and all its field descriptors. |
| `GddsRecord.EncodeRecord` | tools/gdds_utils.py:545-575 | A sample is encoded if and only if every stored field has an acceptable value; the record then has the exact layout of header, entries and payload. |
| `GddsDecode.DecodeRecord` | tools/gpt_lm_bigram_probe.py:85-110 | The decoding loop gives the dictionary that RecordRoundTrip characterises on encoded records, or raises. |
| `GddsDecode.RecordRoundTrip` | tools/gpt_lm_bigram_probe.py:85-110 | Decoding an encoded record gives exactly the stored part of the sample. |
| `GddsDecode.StoredPartExact` | tools/gpt_lm_bigram_probe.py:85-110 | Decoding succeeds if and only if every stored tensor has a known dtype and a payload of the right length; then every stored tensor comes back under its name and nothing else does. |
| `GddsFormat.RecordConforms` | tools/gdds_utils.py:545-575 | Whatever is decoded from an encoded record has the type, the rank and the fixed sizes that the schema gives its field. |
| `GddsFormat.DecodesExact` | tools/gpt_lm_bigram_probe.py:85-110 | Any bytes decode if and only if the record header is whole and right and every entry names a known field of a known type with as many bytes as its sizes need, inside the record. |
| `GddsDecode.U16NotReadable` | tools/gpt_lm_bigram_probe.py:30-33 | A record with a stored u16 field makes the reader raise. |
| `GddsShard.StartsTile` | tools/gdds_utils.py:747-769 | Index entries tile the data region: each record starts where the one before ends. |
| `GddsWriter.ShardWriter.constructor` | tools/gdds_utils.py:699-732 | A new shard is a placeholder header, the schema and padding, with nothing recorded. |
| `GddsWriter.ShardWriter.WriteRecords` | tools/gdds_utils.py:747-769 | A batch appends its records and index entries, or fails at the first record that is too short. |
| `GddsWriter.ShardWriter.Finalize` | tools/gdds_utils.py:771-816 | The published file is exactly the final header over schema, data, padding and index, for a shard with records; an empty one is refused. |
| `GddsWriter.ShardWriter.Abort` | tools/gdds_utils.py:818-831 | An aborted shard publishes nothing. |
| `GddsRoundTrip.HeaderReads` | tools/gpt_lm_bigram_probe.py:56-73 | The reader unpacks every header field that was written. |
| `GddsRoundTrip.IndexRoundTrip` | tools/gpt_lm_bigram_probe.py:76-82 | Every index entry gives the position, the length and the bytes of its record. |
| `GddsRoundTrip.ShardOpens` | tools/gpt_lm_bigram_probe.py:56-82 | A finished shard opens with its schema, counts and offsets, and every record is found. |
| `GddsRoundTrip.ShardRoundTrip` | tools/gpt_lm_bigram_probe.py:56-129 | Reading a finished shard gives the stored part of its samples in order, and raises exactly when one cannot be decoded. |
| `GddsRead.IterSplit` | tools/gpt_lm_bigram_probe.py:113-129 | The rows in front of the first unreadable header or sample are yielded, up to the limit. It raises exactly when that failure is met: a bad sample only while fewer rows than the limit are out, a bad header also when exactly the limit is out. A readable split never raises. |
| `GddsRead.TrailReads` | tools/gpt_lm_bigram_probe.py:113-129 | A split reads as a whole if and only if no header or sample fails, and then as the concatenation of its shards. |
| `GddsSplit.SplitIsLossless` | tools/gdds_utils.py:906-926 | After any run of writes, refused ones included, the shards are non-empty, within the limit, and join to the accepted records in order. |
| `GddsSplit.SplitIsOptimal` | tools/gdds_utils.py:906-926 | No order-preserving split of acceptable records within the limit uses fewer shards. |
| `GddsRefusal.RefusalExact` | tools/gdds_utils.py:906-926 | The shards are those of the accepted records alone if and only if no too-large record meets an open shard that has room for the next acceptable record. |
| `GddsRefusal.StillOptimal` | tools/gdds_utils.py:906-926 | Without such a record no split of the accepted records uses fewer shards. |
| `GddsRefusal.RefusalInstance` | tools/gdds_utils.py:906-926 | With a limit of 608 bytes, a record of 1000 bytes between two of 64 leads to two shards instead of one. |
| `GddsSplitWriter.SplitWriter.constructor` | tools/gdds_utils.py:841-867 | A new split has no shards and is not finished. |
| `GddsSplitWriter.SplitWriter.WriteRecord` | tools/gdds_utils.py:906-926 | One write is one step of the greedy split, with the status of the record. |
| `GddsSplitWriter.SplitWriter.Finish` | tools/gdds_utils.py:928-937 | Finishing turns an open shard with records into the last file, once. |
| `GddsSplitWriter.SplitWriter.Abort` | tools/gdds_utils.py:939-943 | Aborting drops the open shard and keeps the finished files. |
| `GddsSplitFiles.WriteSplit` | tools/gdds_utils.py:1032-1079 | Writing succeeds if and only if there are samples and each one is valid and small enough for a shard of its own; the files are then the greedy split of the encoded samples and read back as the samples. |
| `GddsSplitFiles.SplitRoundTrip` | tools/gpt_lm_bigram_probe.py:113-129 | Whatever the shard boundaries, the files of a split read back as the stored part of every sample in order. |
| `GddsSplitFiles.IterWritten` | tools/gpt_lm_bigram_probe.py:113-129 | Iterating a written split yields the stored part of the samples, up to the limit, and without a limit raises when one of them cannot be decoded. |
| `GddsPredict.MaxFixedRecords` | tools/gdds_utils.py:669-695 | The result is the largest number of equal records that fits a shard: exactly the smaller counts fit. |
| `GddsPredict.DoublingNeverRuns` | tools/gdds_utils.py:680-688 | The first upper bound is already too large, so the doubling loop has no iteration. |
| `GddsPredict.ExpectedShardSamples` | examples/mlp_mnist/dataset.py:139-149 | The predicted counts are full shards followed by the remainder; it raises exactly when one record does not fit. |
| `GddsPredict.PredictionExact` | examples/mlp_mnist/dataset.py:139-149 | The predicted counts are the sizes of the shards that the split writer produces for equal records. |
| `GddsBatch.WriteShardRecords` | tools/gdds_utils.py:946-991 | A shard is written if and only if the batch size is positive, there are records, all are long enough and every check passes; the file then holds exactly the records. |
| `GddsBatch.FittingIsNeverRefused` | tools/gdds_utils.py:972-984 | Records that fit together pass every check, whatever the batch size. |
| `GddsBatch.LimitExact` | tools/gdds_utils.py:972-984 | For a given number of records, the checks keep the limit for all records if and only if that number is one more than a multiple of the batch size. |
| `GddsBatch.TooLargeShardPasses` | tools/gdds_utils.py:972-984 | Two records of 64 bytes in a batch of two pass every check against 592 bytes and need 608. |
| `Arith.MaskIsAlignUp` | probes/v2_foundation_probe.c:70-74 | For powers of two, and a sum that does not wrap, the mask form of rounding up equals the arithmetic round-up. |
| `Arith.PowerOfTwoTest` | probes/v2_foundation_probe.c:72-72 | The bit test accepts exactly the powers of two. |
| `Arenas.MaskedOffset` | probes/v2_foundation_probe.c:199-203 | The offset computed with masks is the least one whose absolute address is aligned. |
| `Arenas.AllocKeeps` | probes/v2_foundation_probe.c:181-216 | A granted span is aligned at its absolute address, inside the arena and behind every earlier span; a refused allocation changes nothing. |
| `Arenas.AllocStatus` | probes/v2_foundation_probe.c:181-216 | A frozen arena refuses everything as frozen; any other grants exactly what fits behind the next aligned place, there. |
| `Arenas.RefusedMeansFull` | probes/v2_foundation_probe.c:204-206 | An allocation is refused only when no aligned place is left. |
| `Arenas.RunSound` | probes/v2_foundation_probe.c:144-216 | Over any run of allocations, resets and freezes, the spans of the current generation are disjoint and inside the arena, and the watermark is exactly the highest offset reached. |
| `Arenas.FrozenForGood` | probes/v2_foundation_probe.c:175-198 | A frozen arena keeps its spans, offset and generation for good. |
| `Arenas.Arena.constructor` | probes/v2_foundation_probe.c:144-155 | A new arena is empty, in generation 1. |
| `Arenas.Arena.ResetArena` | probes/v2_foundation_probe.c:166-173 | A reset empties the arena and starts the next generation. |
| `Arenas.Arena.FreezeArena` | probes/v2_foundation_probe.c:175-179 | Freezing changes only the flag. |
| `Arenas.Arena.TryAlloc` | probes/v2_foundation_probe.c:181-216 | One allocation is one step of the specification; a granted span is zeroed and no other byte changes. |
| `Rings.SelectSafe` | probes/v2_foundation_probe.c:331-358 | In any state the fence of the selected slot has completed when it is reset, no other slot is touched, and the backend waits at most for the oldest fence of the ring. |
| `Rings.SelectExact` | probes/v2_foundation_probe.c:316-358 | In any state: the first slot behind the current one whose fence has completed, without waiting; and when there is none, the first slot with the smallest fence, after waiting for it. |
| `Rings.SelectIsNext` | probes/v2_foundation_probe.c:331-358 | After k scopes the search takes slot k mod n at its first candidate, and an exhausted ring waits for exactly the fence of scope k - n. |
| `Rings.SameGeneration` | probes/v2_foundation_probe.c:331-358 | The generation of the slot of scope i changes again exactly when scope i + n begins. |
| `Scopes.BeginExact` | probes/v2_foundation_probe.c:411-419 | Beginning scope k moves both rings to slot k mod n and waits for exactly the fences of the scopes whose slots are taken over. |
| `Scopes.RunAfter` | probes/v2_foundation_probe.c:411-431 | Over any run of scopes, completions and waits, the rings stand where that many round-robin steps put them and every slot carries the fence of its last ended scope. |
| `Scopes.ScopeSlots` | probes/v2_foundation_probe.c:411-419 | In every run from the start, scope k uses slot k mod n of each ring. |
| `Scopes.ScopeGeneration` | probes/v2_foundation_probe.c:331-358 | In scope i the slot is in generation i / n + 2. |
| `Scopes.DescriptorLife` | probes/v2_foundation_probe.c:510-520 | A descriptor made in scope i passes the generation check exactly until scope i + n begins, and never again, whatever happens in between. |
| `Scopes.NoResetInFlight` | probes/v2_foundation_probe.c:331-358 | In any state, beginning a scope resets only slots whose fence has completed. |
| `Context.RingArena.SelectSlot` | probes/v2_foundation_probe.c:331-358 | Selecting a slot on the mutable ring is one step of the specification, backend included. |
| `Context.RingArena.OldestBusySlot` | probes/v2_foundation_probe.c:316-329 | The search finds the first slot with the smallest fence in flight. |
| `Context.RingArena.RecordSlotFence` | probes/v2_foundation_probe.c:360-364 | The fence goes to the current slot and nowhere else. |
| `Context.GdContext.constructor` | probes/v2_foundation_probe.c:379-386 | A new context has two slots per ring, no scope and empty arenas. |
| `Context.GdContext.Begin` | probes/v2_foundation_probe.c:411-419 | Beginning a scope selects a slot of each ring, in that order, and remembers them. |
| `Context.GdContext.End` | probes/v2_foundation_probe.c:421-431 | Ending a scope records one fence on both current slots. |
| `Context.GdContext.ScratchArena` | probes/v2_foundation_probe.c:397-402 | Inside a scope the scratch arena is that of the current slot, and descriptors of its generation are live. |
| `Context.GdContext.DataArena` | probes/v2_foundation_probe.c:404-409 | Inside a scope the data arena is that of the current slot, and descriptors of its generation are live. |
| `StateObjects.ResetOutcome` | probes/v2_foundation_probe.c:666-694 | A reset hands back either the same bytes with their fence completed or bytes behind everything used so far. |
| `StateObjects.ResetMoves` | probes/v2_foundation_probe.c:666-694 | A reset moves the object if and only if it has to grow or, where that is allowed, is in flight; it waits, for the fence of the object, if and only if the object is in flight and must not move; and it fails if and only if the object is stale or a span it needs is not granted. |
| `StateObjects.RunGood` | probes/v2_foundation_probe.c:636-694 | Over any run whose marks lose nothing and name recorded fences, objects stay apart and every use in flight is covered by the fence of the object on its bytes. |
| `StateObjects.ResetNeverInFlight` | probes/v2_foundation_probe.c:666-694 | After any such run a reset or reallocation never hands back bytes that are in flight. |
| `StateObjects.MarkOrderExact` | probes/v2_foundation_probe.c:660-664 | In every good state and for every mark: the state stays good if and only if the fence is recorded and is not older than the one it replaces, or that one has completed; a reset right after the mark is safe if and only if the second holds, and stays safe when everything recorded completes if and only if the first does. |
| `StateObjects.OutOfOrderLoses` | probes/v2_foundation_probe.c:660-664 | Create, record two fences, mark with the second and then the first, reset: the bytes of fence 2 are handed back while it is in flight. |
| `StateObjects.UnrecordedLoses` | probes/v2_foundation_probe.c:252-269 | Create, mark with a fence that was never recorded, reset, complete everything: the completed fence falls back, and the bytes handed back count as in flight. |
| `StateBuffers.CreateState` | probes/v2_foundation_probe.c:636-650 | Creating a state object allocates its name and then its storage. |
| `StateBuffers.ResetState` | probes/v2_foundation_probe.c:666-694 | The mutable object moves exactly when it has to grow or may move and is in flight, to fresh bytes; the backend waits only for an object in flight that must not move; an object that stays keeps its bytes. |
| `Tensors.Numel` | probes/v2_foundation_probe.c:452-462 | The number of elements is accepted if and only if every size is positive and every partial product fits 63 bits; it is then the product. |
| `Tensors.MakeContiguousStrides` | probes/v2_foundation_probe.c:464-472 | The loop from the last dimension computes the products of the sizes behind each dimension. |
| `Tensors.IsContiguous` | probes/v2_foundation_probe.c:474-488 | The test accepts exactly the row-major strides. |
| `Tensors.ChainAddress` | probes/v2_foundation_probe.c:561-591 | After any chain of slices an element is the element of the base tensor at the index moved by the summed starts. |
| `Tensors.ViewInjective` | probes/v2_foundation_probe.c:561-591 | Different elements of a view never overlap. |
| `Tensors.ViewInside` | probes/v2_foundation_probe.c:561-591 | Every byte of every element of a view lies in the base allocation. |
| `Tensors.ChainContiguous` | probes/v2_foundation_probe.c:474-488 | A chain of slices is contiguous if and only if every dimension but the first keeps its extent. |
| `Tensors.SliceContiguous` | probes/v2_foundation_probe.c:474-488 | One slice is contiguous if and only if it cuts dimension 0 or keeps everything. |
| `TensorAlloc.TensorEmpty` | probes/v2_foundation_probe.c:522-559 | A tensor is made if and only if the sizes are accepted, the byte size modulo 2^64 is not 0 and the arena has room; it is live, aligned and fresh, and has room for its elements if and only if its bytes fit 64 bits. |
| `TensorAlloc.StoragePlanExact` | probes/v2_foundation_probe.c:522-557 | Descriptor, name and storage stand in this order at the next aligned places; the plan fails exactly on a frozen arena, for no bytes, or without room. |
| `TensorAlloc.HandleLife` | probes/v2_foundation_probe.c:510-520 | A tensor passes the live check exactly until the arena of its descriptor or that of its storage is reset, whatever is allocated or frozen in between. |
| `TensorAlloc.AllocationExact` | probes/v2_foundation_probe.c:522-559 | The live check always passes on a new tensor; its allocation holds every element if and only if the byte size is below 2^64. |
| `TensorAlloc.HugeTensor` | probes/v2_foundation_probe.c:522-557 | 2^62 + 1 elements of four bytes are accepted by every arena with room for a descriptor, a name and four bytes; the live check passes, and elements lie outside the allocation. |
| `TensorAlloc.TensorSlice` | probes/v2_foundation_probe.c:561-591 | A slice is made if and only if the tensor is live, the cut is in range, the header fits and the new span passes; the view is the cut tensor with its offset modulo 2^64. |
| `TensorAlloc.SliceIsExact` | probes/v2_foundation_probe.c:561-591 | On views of a tensor whose bytes fit 64 bits no offset wraps and the live check passes. |
| `Utf8.EncodeDecode` | tools/gradients-tokenize.c:446-489 | What an independent UTF-8 decoder accepts is exactly an encoding of its code point. |
| `Utf8.DecodeEncode` | tools/gradients-tokenize.c:446-489 | The independent decoder gives every encodable code point back, whatever follows. |
| `JsonBuffer.Buffer.AppendByte` | tools/gradients-tokenize.c:424-444 | One byte is appended and room for the terminator is kept. |
| `JsonBuffer.Buffer.AppendUtf8` | tools/gradients-tokenize.c:446-489 | The encoding of a code point is appended, or it is refused exactly when there is none. |
| `JsonParse.ParseStringAt` | tools/gradients-tokenize.c:510-629 | The cursor parser with its growing buffer gives the value and the end that ParserExact characterises, and on an error leaves the cursor where it was. |
| `JsonString.ParserExact` | tools/gradients-tokenize.c:510-629 | A text parses to a value over n bytes if and only if its first n bytes are a literal of the grammar with that value. |
| `JsonString.ValuesNulFree` | tools/gradients-tokenize.c:510-629 | Decoded strings hold no NUL. |
| `JsonEscapes.EscapeReadsAs` | tools/gradients-tokenize.c:535-560 | Each of the eight two-character escapes reads as its byte. |
| `JsonEscapes.UnknownEscape` | tools/gradients-tokenize.c:535-610 | No other letter than u may follow a backslash. |
| `JsonEscapes.HexDigitsExact` | tools/gradients-tokenize.c:410-422 | The hexadecimal digits are those of both cases and nothing else. |
| `JsonEscapes.HexNumberIs` | tools/gradients-tokenize.c:491-508 | Four digits form a number, the most significant one first. |
| `JsonEscapes.SurrogatesExact` | tools/gradients-tokenize.c:573-590 | A pair of surrogates stands for a code point if and only if it is the pair of that code point in UTF-16. |
| `JsonString.WriteString` | tools/gradients-tokenize.c:385-408 | The printer writes the literal whose characters print the bytes. |
| `JsonEscapes.PrintedAs` | tools/gradients-tokenize.c:385-408 | Every byte is printed as itself, unless it is a quote, a backslash or a control character; those have their escapes. |
| `JsonString.PrintParse` | tools/gradients-tokenize.c:385-408 | Parsing what was printed gives the string back and consumes exactly what was printed, whatever follows. |
| `JsonScanner.SkipValueAt` | tools/gradients-tokenize.c:646-692 | The skipper with its fixed stack of closers moves the cursor exactly as far as SkipWhole and SkipScalar characterise, inside the text, or fails. |
| `JsonExtract.SkipWhole` | tools/gradients-tokenize.c:646-692 | On a string or container the skipper stops exactly at its end, whatever follows. |
| `JsonExtract.SkipScalar` | tools/gradients-tokenize.c:646-692 | On a scalar it stops at the next delimiter. |
| `JsonScanner.ExtractString` | tools/gradients-tokenize.c:694-750 | The member loop over the cursor gives exactly the result that ExtractExact characterises, on every text. |
| `JsonExtract.ExtractExact` | tools/gradients-tokenize.c:694-750 | On any well-formed object nested at most 128 deep the result is the decoded value of the first member with that name, an error if it is no string, and not-found if there is none. |
| `JsonFound.FoundIsThere` | tools/gradients-tokenize.c:694-750 | On any text, well-formed or not: a value is found only behind an opening brace, members with other names, and a first member of that name, whose string it is. |
| `JsonFound.CharactersExact` | tools/gradients-tokenize.c:631-692 | White space, delimiters and opening brackets by their codes. |
| `TokWriter.Writer.constructor` | tools/gradients-tokenize.c:1032-1045 | A new writer has no shard and no totals. |
| `TokWriter.Writer.StartShard` | tools/gradients-tokenize.c:1047-1110 | Opening a shard changes no sequence. |
| `TokWriter.Writer.FinishShard` | tools/gradients-tokenize.c:1112-1142 | Finishing adds the manifest entry of the open shard. |
| `TokWriter.Writer.WriteSequence` | tools/gradients-tokenize.c:1173-1247 | Prefix, body and suffix form one sequence that is written by one step of the specification, or refused; what the steps make of a run say RunFills and ShardsOptimal. |
| `TokWriter.StepKeeps` | tools/gradients-tokenize.c:1173-1247 | A step keeps every shard non-empty and within the limit, and adds the sequence exactly when it is acceptable. |
| `TokSplit.RunFills` | tools/gradients-tokenize.c:1173-1247 | After any accepted sequences the shards joined are the sequences in order, none exceeds the limit, and none has room for the first sequence of the next one. |
| `TokSplit.ShardsOptimal` | tools/gradients-tokenize.c:1173-1247 | No split of the sequences, in their order and within the limit, uses fewer shards. |
| `TokCorpus.OffsetsArePrefixSums` | tools/gradients-tokenize.c:1047-1110 | Offsets are prefix sums that start at 0 and end at the number of tokens. |
| `TokCorpus.JsonlRoundTrip` | tools/tok_utils.py:376-396 | A JSONL shard passes every check and reads back its sequences. |
| `TokCorpus.AcceptedIsWhole` | tools/tok_utils.py:376-396 | Any JSONL shard that passes the checks, with offsets that never decrease, yields all its tokens in order. |
| `TokCorpus.PackedRoundTrip` | tools/tok_utils.py:359-374 | A packed shard passes the size check and reads back its rows. |
| `TokCorpus.AcceptedRows` | tools/tok_utils.py:359-374 | Any packed shard that passes its check yields all its tokens, in rows of the given width. |
| `TokRuns.RunRoundTrip` | tools/tok_utils.py:404-427 | The shards of any run of accepted sequences read back in order, none exceeds the limit, none has room for the next sequence, and their counts add up to the totals. |
| `TokFiles.UnpackPack` | tools/tok_utils.py:20-21 | An array of fixed-width numbers on disk maps back to the numbers. |
| `TokFiles.PackUnpack` | tools/tok_utils.py:20-21 | Every file of whole elements is the packing of what it maps to. |
| `TokFiles.ShardFilesExact` | tools/gradients-tokenize.c:1112-1142 | The files of a shard map back to it, and its manifest entry counts their bytes exactly. |
| `TokFiles.FilesRoundTrip` | tools/tok_utils.py:404-427 | From sequences to the bytes of the token and offset files and back: the sequences come out in order. |
| `TokRuns.RunPackedText` | tools/gradients-tokenize.c:1399-1536 | A packed text run succeeds exactly for a width from 3 on that fits a shard and a length limit of at least 2, and its corpus is the rows of the text. |
| `TokRuns.TextRowsExact` | tools/gradients-tokenize.c:1430-1494 | The rows restore the start id, a prefix of the body and the end id; fewer than N - 1 tokens of the length-limited body are dropped and the length limit is respected. |
| `TokRuns.RowsOverlap` | tools/gradients-tokenize.c:1463-1494 | Adjacent rows share exactly one token. |
| `TokRuns.RowsRestore` | tools/gradients-tokenize.c:1463-1494 | The rows tile the stream up to the last token of the last row. |
| `TokJsonl.RunJsonl` | tools/gradients-tokenize.c:1538-1682 | A JSONL run succeeds if and only if the length limit is in 2..2^31 - 1 and every line has the field and a row small enough for a shard; the corpus then holds one row per line, in order: the start id, the tokens of the extracted text as far as the limit leaves room, and the end id. |
| `TokJsonl.RowLengths` | tools/gradients-tokenize.c:1600-1627 | Every such row respects the length limit, and its size decides whether it is written; with a limit below 2^28 it always is. |
| `TokJsonl.RowsArePackable` | tools/data_fineweb2.py:2076-2148 | The shards of a JSONL run are valid packer input whose documents are the rows, none of them one token long, so planned shards fit. |
| `RegistryText.ValidOpName` | tools/gen_ops.c:76-99 | A name is accepted if and only if it is a lower-case word of letters, digits and single inner underscores below 96 characters. |
| `RegistryNames.ValidNameExact` | tools/gen_ops.c:76-99 | A name is valid if and only if it is made of words of lower-case letters and digits with single underscores between them, begins with a letter, and has fewer than 96 characters. |
| `RegistryText.OpLineEntries` | tools/gen_ops.c:273-321 | A generated line is read back as its name and id. |
| `RegistryHeader.HeaderReads` | tools/gen_ops.c:493-523 | The whole generated header says exactly the names with their ids, between entries that carry none. |
| `RegistryOrder.OrderLaws` | tools/gen_ops.c:323-343 | The comparison is a strict order, total on different names and consistent in its sign. |
| `RegistryOrder.SortedUnique` | tools/gen_ops.c:345-352 | There is only one sorted arrangement of operations with different names. |
| `Registry.Table.ScanOps` | tools/gen_ops.c:215-271 | The scan keeps exactly the valid operation directories that have a source file, in scan order, and fails exactly when a candidate meets a full table. |
| `RegistryNames.OpsAreDirectories` | tools/gen_ops.c:215-271 | The operations are exactly the directories with such a name that hold a core or an autograd source. |
| `RegistryNames.OpsInOrder` | tools/gen_ops.c:215-271 | They keep the order of the scan. |
| `Registry.Table.ApplyExistingOrder` | tools/gen_ops.c:273-321 | The nested loops give every operation the last positive id that the text states for it. |
| `RegistryNames.LastIdExact` | tools/gen_ops.c:273-321 | The id of a name is that of the last entry that sets one, and stays what it was where none does. |
| `RegistryNames.IdExact` | tools/gen_ops.c:303-312 | The id behind a name: the digits behind the next equals sign when they fit 32 bits, and none otherwise. |
| `RegistryNames.NoIdWithout` | tools/gen_ops.c:303-312 | Without an equals sign there is no id. |
| `RegistryText.StrtoulExact` | tools/gen_ops.c:305-308 | White space, an optional sign and digits read as the number, cut off at the largest unsigned long; a negative one wraps. |
| `Registry.Table.AssignNewIds` | tools/gen_ops.c:345-352 | The table is sorted and numbered from 1. |
| `Registry.Regenerate` | tools/gen_ops.c:215-523 | Scan, existing header, sorting and rendering together: the new header lists the order that OrderExact characterises, and the run fails exactly when there are too many operations. |
| `RegistryRuns.OrderRearranges` | tools/gen_ops.c:345-352 | The new order has exactly the scanned names, each once, so the ids are a bijection onto 1..n. |
| `RegistryRuns.ScanOrderIrrelevant` | tools/gen_ops.c:345-352 | The ids do not depend on the order of the directory scan, whatever the header says. |
| `RegistryRuns.OrderExact` | tools/gen_ops.c:273-352 | The known operations keep their order and the newcomers follow them by name. |
| `RegistryRuns.AddingKeepsIds` | tools/gen_ops.c:273-352 | Adding operations to a registry keeps every id and appends the new ones by name. |
| `RegistryRuns.RemovingKeepsOrder` | tools/gen_ops.c:273-352 | Removing operations keeps the order of the others. |
| `RegistryRuns.FixedPointExact` | tools/gen_ops.c:273-523 | Generating again from the generated header changes nothing if and only if the operations named invalid or count come last, by name. |
| `RegistryRuns.SecondRunExact` | tools/gen_ops.c:273-523 | The same from any first header and with any order of the second scan. |
| `RegistryRuns.ReservedNamesMove` | tools/gen_ops.c:302-302 | An operation named count or invalid in front of zeta moves behind it when the generator runs again. |
| `RegistryRuns.IdsNeverChange` | tools/gen_ops.c:273-523 | Over any run of generations in which operations are only added, no id ever changes. |
| `ConfigScan.Scan` | examples/common/gd_example_config.c:156-222 | The flag-driven loop of both scanners finds the first stop outside quotes. |
| `ConfigScalar.DoubleExact` | examples/common/gd_example_config.c:277-330 | The double-quoted decoder accepts exactly the characters of the grammar up to the first closing quote and gives what they stand for. |
| `ConfigScalar.SingleExact` | examples/common/gd_example_config.c:235-275 | The single-quoted decoder accepts exactly the texts with every inner quote doubled. |
| `ConfigScalar.EscapesExact` | examples/common/gd_example_config.c:300-312 | The five escapes inside double quotes stand for their characters, and no others are accepted. |
| `ConfigScalar.RunScalar` | examples/common/gd_example_config.c:332-372 | The loops of both decoders and the trimming give the value that DoubleExact and SingleExact characterise, or an error. |
| `ConfigScalar.QuotedPasses` | examples/common/gd_example_config.c:156-222 | No scanner stops inside a quoted scalar, and behind it the scanner is outside quotes again. |
| `Config.Doc.AddEntry` | examples/common/gd_example_config.c:395-422 | An entry is added if and only if its key is new. |
| `Config.Doc.ParseLine` | examples/common/gd_example_config.c:424-468 | One line adds its pair when its key is new, changes nothing when it has no content, and otherwise fails without changing the document. |
| `Config.Doc.Load` | examples/common/gd_example_config.c:532-578 | The line loop over the file up to its first NUL, with its carriage-return strip and line numbers, gives the document that LoadExact characterises, and leaves none on an error. |
| `ConfigRoundTrip.LineReads` | examples/common/gd_example_config.c:424-468 | Every written line, with any white space, any scalar and a comment behind it, reads as its setting, or as nothing for blank lines and markers. |
| `ConfigLines.LineExact` | examples/common/gd_example_config.c:424-468 | A line is accepted, for a meaning, if and only if it has a written form with that meaning: key and scalar, nothing, or a marker, each with white space and a comment. Every other line is an error. |
| `ConfigLines.CharactersExact` | examples/common/gd_example_config.c:121-124 | The characters of keys and the white space by their codes. |
| `ConfigRoundTrip.LoadExact` | examples/common/gd_example_config.c:532-578 | Loading any written NUL-free file gives exactly its settings with their line numbers if no key occurs twice, and an error otherwise. |
| `ConfigWritten.WrittenLoads` | examples/common/gd_example_config.c:532-578 | A file written from distinct valid keys and any values loads back as it was if and only if no value has a NUL; otherwise it does not load at all. |
| `Glob.GlobMatchHere` | probes/v2_foundation_probe.c:848-872 | The recursive matcher with its star loops terminates and returns exactly the relation that GlobExact characterises. |
| `Glob.GlobExact` | probes/v2_foundation_probe.c:848-872 | A pattern matches a text if and only if some texts in place of its stars give it. |
| `Params.FirstGroupExact` | probes/v2_foundation_probe.c:879-890 | The group of a path is the first one whose pattern means it. |
| `Params.ParamSet.AddParam` | probes/v2_foundation_probe.c:903-923 | A tensor already collected gains an alias, a new one an item; it fails exactly when an array is full. |
| `ParamWalk.VisitsExact` | probes/v2_foundation_probe.c:934-953 | The walk visits exactly the trainable parameters of the graph, each address once, depth first with the parameters of a module before those of its children, and each under the names that lead to it. |
| `ParamWalk.EarlierTotal` | probes/v2_foundation_probe.c:934-953 | That order is total, so it leaves one sequence of visits. |
| `Params.JoinExact` | probes/v2_foundation_probe.c:925-932 | Names that fit are joined by a dot; longer ones are cut to the 255 characters that fit. |
| `Params.ParamSet.Collect` | probes/v2_foundation_probe.c:934-953 | The recursive walk over the mutable set adds the visits that VisitsExact characterises, in that order. |
| `Params.CollectModuleParams` | probes/v2_foundation_probe.c:955-962 | For any graph and paths of any length the collection succeeds if and only if everything fits, and then describes every tensor by the visits that VisitsExact characterises. |
| `Params.CollectExact` | probes/v2_foundation_probe.c:903-953 | Each distinct tensor is collected once, in the order of its first path; its later paths are its aliases in the order met, and its group is the one of the first path. |

## Findings

Properties that the code does not have, each with the line, an input and the exact condition.

- **Shard names sort like shard numbers only up to 100000 shards** (`tools/data_fineweb2.py:1907-1961`). Names carry
  five digits, and `...-100000.gdds` sorts before `...-99999.gdds`. Exactly up to 100000 shards sorting restores the
  plan: `Parallel.NameOrderExact`, `Parallel.SortedIsPlanExactly`.
- **One-token documents break the planner's size estimate** (`tools/data_fineweb2.py:1870-1876`). 32769 documents of
  one token at context 16384 are planned, with one worker, into one shard of 197536 bytes under a limit of 132100:
  `ShardFit.SinglesOverflow`. The exact size depends only on the number of rows and of documents that start inside
  them: `ShardSize.ShardFitsExactly`. Without one-token documents the estimate suffices: `ShardFit.PlannedShardFits`.
- **The batched shard writer does not keep its byte limit** (`tools/gdds_utils.py:972-984`). The check ignores records
  that are read but not yet written: two records of 64 bytes in one batch of two pass against 592 bytes and make a
  shard of 608: `GddsBatch.TooLargeShardPasses`. For a given number of records the limit is kept for all inputs
  exactly when that number is one more than a multiple of the batch size: `GddsBatch.LimitExact`.
- **A refused record closes the open shard** (`tools/gdds_utils.py:912-921`). With a limit of 608 bytes, a record of
  1000 bytes between two of 64 leads to two shards: `GddsRefusal.RefusalInstance`. The shards differ from those of the
  accepted records exactly when a too-large record meets an open shard with room for the next acceptable one:
  `GddsRefusal.RefusalExact`.
- **The bigram reader cannot read u16 fields** (`tools/gpt_lm_bigram_probe.py:30-33`), the type the pipeline stores
  tokens in: `GddsDecode.U16NotReadable`; exactly the readable samples: `GddsDecode.StoredPartExact`.
- **Field names are cut at a NUL** (`tools/gpt_lm_bigram_probe.py:71`): read back exactly when they have none,
  `GddsSchema.NameRoundTrip`.
- **The doubling loop of the size prediction never runs** (`tools/gdds_utils.py:680-688`):
  `GddsPredict.DoublingNeverRuns`.
- **Tensor byte sizes wrap** (`probes/v2_foundation_probe.c:540`). 2^62 + 1 elements of four bytes get a live tensor on
  a four-byte span from every arena with room: `TensorAlloc.HugeTensor`. The elements lie inside the allocation exactly
  when their bytes fit 64 bits: `TensorAlloc.AllocationExact`.
- **A state object forgets work when marks come out of order** (`probes/v2_foundation_probe.c:660-664`). Marking with
  fence 2, then with fence 1, then resetting hands the bytes back while fence 2 is in flight:
  `StateObjects.OutOfOrderLoses`. A reset right after a mark is safe exactly when its fence is not older than the one it
  replaces or that one has completed: `StateObjects.MarkOrderExact`.
- **A mark with a fence that was never recorded undoes a completion** (`probes/v2_foundation_probe.c:252-269`). Waiting
  for it moves the completed fence past the recorded ones, and completing everything takes it back:
  `StateObjects.UnrecordedLoses`. A reset stays safe exactly when the fence of the mark was recorded:
  `StateObjects.MarkOrderExact`.
- **Operations named `count` or `invalid` have no stable id** (`tools/gen_ops.c:302`). With `count` or `invalid` in
  front of `zeta` the second run swaps their ids: `RegistryRuns.ReservedNamesMove`. Generating again changes nothing exactly when such
  operations come last, by name: `RegistryRuns.FixedPointExact`.
- **The last target of a compact sample is lost** (`examples/gpt_lm/dataset_ita_dict_v2.py:967-994`), as it depends on
  the document of a token that the segment lengths do not cover; an instance is `Compact.LastTargetLost`. A target is
  determined by the row exactly when it is not the last one, or the last token is the mask value itself:
  `Compact.DeterminedExact`, from `Compact.CompactKeeps` and, for every window, `Compact.LastTargetOpen`.
- **A value with a NUL makes a written configuration unreadable** (`examples/common/gd_example_config.c:548-575`), as the
  line loop ends at the NUL, inside the quotes. A written file loads back exactly when its values have none:
  `ConfigWritten.WrittenLoads`.

## Left out

- Files are byte sequences, and directories are lists of files. Paths, I/O errors, temporary files, memory exhaustion,
  manifests and progress output are not modelled.
- The process pool is any order in which each range is written once; the first exception ends the job. Pickling is not
  modelled, nor which files are left when a job fails.
- `ParallelJob.WriteSplitParallel`: counts the tokens of the shards from their files, where the code trusts the counts in
  the references; and it requires a context of at least 2, which the configuration checks before (tools/data_fineweb2.py:440).
- The schema hash is a parameter of the writers.
- `GddsSchema.EncodeSchema`: builds each 160-byte descriptor in place and appends it, where the code fills one buffer.
- `GddsDecode.DecodeRecord`: a product of dimensions beyond 64 bits and a negative dimension raise in the model, where
  numpy wraps the product or infers the dimension. The names are compared as bytes, without UTF-8 decoding.
- `GddsRead.IterSplit`: the manifest that lists the shards is the list itself.
- `RangeWorker.WriteRange`: that a range is always written is stated for contexts below 2^31, where run lengths fit their
  `i32` array.
- 64-bit overflow of generations, fences and arena sizes is a precondition of the classes (capacities and alignments up
  to 2^62); byte sizes of tensors do wrap in the model. Signed overflow of `start + len` in `tensor_slice` is not
  modelled.
- Tensor and module headers are values beside the arena; what a stale header in reused memory holds is not modelled.
  Names of arenas, tensors and state objects are only lengths.
- The state arena is never reset, as in the probe.
- `StateObjects.RunGood`: marks name fences that were recorded, which the code does not check; `MarkOrderExact` shows
  that this is exactly what is needed.
- `Params.CollectModuleParams`: a group is only its pattern, without learning rate and decay. Training flags, buffers
  and the list and dict wrappers are left out.
- The tokenizer is a function from text to ids. The JSONL line reader is the list of its lines as C strings.
- JSON texts are shorter than 2^60 bytes.
- The token and offset files are little-endian, as the reader assumes; the writer uses the byte order of its host.
- `Registry.Table.ApplyExistingOrder`: header texts hold no NUL, and `unsigned long` has 64 bits. `qsort` is any sorting
  that follows the comparison, which has only one result.
- The other generated files of `tools/gen_ops.c` and the definition files of operations are left out.
- `Config.Doc.Load`: the error messages and the typed getters are left out.
- Losses, entropies and other floating-point work, BPE, hashing, downloads, GPU execution and the public API probes are
  left out.
