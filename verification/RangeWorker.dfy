/** One planned range from tokenized shards to a finished file (`write_gdds_range_worker`). */
module RangeWorker {
  import opened Arith
  import opened Seqs
  import opened Bytes
  import opened Segments
  import opened GddsSchema
  import GddsRecord
  import opened GddsShard
  import opened GddsWriter
  import opened GddsSplit
  import opened GddsSplitWriter
  import opened GddsBatch
  import opened GddsRoundTrip
  import opened Parallel
  import opened RangePacking
  import opened ShardFit
  import opened RowReader
  import P = Packing

  /** The records encode the rows, one each. */
  ghost predicate RowsEncoded(rows: seq<P.Sample>, c: nat, records: seq<Data>)
    requires c + 1 < 0x8000_0000_0000_0000
  {
    |records| == |rows| && forall i :: 0 <= i < |rows| ==> RowEncoded(rows[i], c, records[i])
  }

  ghost predicate RowEncoded(row: P.Sample, c: nat, record: Data)
    requires c + 1 < 0x8000_0000_0000_0000
  {
    Storable(row, c) && Encodes(StorageFields(c), ToGdds(row, c), record)
  }

  lemma {:induction false} RecordsSize(rows: seq<P.Sample>, c: nat, records: seq<Data>)
    requires c + 1 < 0x8000_0000_0000_0000 && RowsEncoded(rows, c, records)
    ensures TotalBytes(records) == RowsBytes(rows) && LongEnough(records)
  {
    forall i | 0 <= i < |rows|
      ensures |records[i]| == RowBytes(rows[i])
    {
      assert RowEncoded(rows[i], c, records[i]);
      RecordSize(rows[i], c, records[i]);
    }
    SizesAddUp(rows, records);
  }

  lemma {:induction false} SizesAddUp(rows: seq<P.Sample>, records: seq<Data>)
    requires |rows| == |records| && forall i :: 0 <= i < |rows| ==> |records[i]| == RowBytes(rows[i])
    ensures TotalBytes(records) == RowsBytes(rows)
  {
    if rows != [] {
      SizesAddUp(rows[..|rows| - 1], records[..|rows| - 1]);
    }
  }

  /** A finished file has exactly the predicted number of bytes, and fits when that number does. */
  lemma {:induction false} FitsAsPredicted(rows: seq<P.Sample>, c: nat, records: seq<Data>, maxShardBytes: nat)
    requires c + 1 < 0x8000_0000_0000_0000 && RowsEncoded(rows, c, records)
    ensures Projected(DataOffset(FieldBase(2)), TotalBytes(records), |records|) == ShardBytes(rows)
    ensures Fits(DataOffset(FieldBase(2)), Some(maxShardBytes), records) <==> ShardBytes(rows) <= maxShardBytes
  {
    DataOffsetIs();
    RecordsSize(rows, c, records);
  }

  /** Encode the rows; `None` when a token does not fit 16 bits. */
  method EncodeRows(rows: seq<P.Sample>, c: nat) returns (records: Option<seq<Data>>)
    requires 0 < c && c + 1 < 0x8000_0000_0000_0000
    ensures records.Some? <==> forall i :: 0 <= i < |rows| ==> Storable(rows[i], c)
    ensures records.Some? ==> RowsEncoded(rows, c, records.value)
  {
    StorageFieldsOk(c);
    var out: seq<Data> := [];
    for i := 0 to |rows|
      invariant RowsEncoded(rows[..i], c, out)
    {
      if !Storable(rows[i], c) {
        return None;
      }
      RowAccepted(rows[i], c);
      var record := GddsRecord.EncodeRecord(StorageFields(c), ToGdds(rows[i], c));
      RowsEncodedSnoc(rows, c, i, out, record.value);
      out := out + [record.value];
    }
    assert rows[..|rows|] == rows;
    forall i | 0 <= i < |rows|
      ensures Storable(rows[i], c)
    {
      assert RowEncoded(rows[i], c, out[i]);
    }
    records := Some(out);
  }

  lemma {:induction false} RowsEncodedSnoc(rows: seq<P.Sample>, c: nat, i: nat, out: seq<Data>, record: Data)
    requires c + 1 < 0x8000_0000_0000_0000 && i < |rows| && RowsEncoded(rows[..i], c, out)
        && RowEncoded(rows[i], c, record)
    ensures RowsEncoded(rows[..i + 1], c, out + [record])
  {
    forall j | 0 <= j < i + 1
      ensures RowEncoded(rows[..i + 1][j], c, (out + [record])[j])
    {
      if j < i {
        assert RowEncoded(rows[..i][j], c, out[j]);
      }
    }
  }

  /** Every token id fits 16 bits. */
  ghost predicate CompactTokens(docs: seq<seq<int>>) {
    forall p :: 0 <= p < |Flatten(docs)| ==> 0 <= Flatten(docs)[p] < 0x1_0000
  }

  lemma {:induction false} RowsStorable(docs: seq<seq<int>>, c: nat, lo: nat, n: nat, i: nat)
    requires 0 < c <= 0x7FFF_FFFF && CompactTokens(docs) && i < n && lo + n <= P.Windows(|Flatten(docs)|, c)
    ensures Storable(P.Rows(docs, c, lo, n)[i], c)
  {
    P.RowAt(docs, c, lo, n, i);
    WindowStorable(Flatten(docs), P.Owners(docs), c, lo + i);
  }

  lemma {:induction false} WindowStorable(stream: seq<int>, owners: seq<int>, c: nat, k: nat)
    requires 0 < c <= 0x7FFF_FFFF && |owners| == |stream| && k < P.Windows(|stream|, c)
    requires forall p :: 0 <= p < |stream| ==> 0 <= stream[p] < 0x1_0000
    ensures Storable(P.WindowAt(stream, owners, c, k).Label(), c)
  {
    WindowParts(stream, owners, c, k);
    var base := P.RowStart(c, k);
    SmallSegments(owners[base..base + c]);
    StorableParts(P.WindowAt(stream, owners, c, k).Label(), c, stream, base);
  }

  ghost predicate SmallLengths(ls: seq<int>, c: nat) {
    |ls| <= c && forall k :: 0 <= k < |ls| ==> 0 < ls[k] <= c
  }

  lemma {:induction false} SmallSegments(ids: seq<int>)
    requires ids != []
    ensures SmallLengths(SegmentLengths(ids), |ids|)
  {
    SegmentLengthsCover(ids);
    LengthsBounded(SegmentLengths(ids));
  }

  lemma {:induction false} StorableParts(row: P.Sample, c: nat, stream: seq<int>, base: nat)
    requires 0 < c <= 0x7FFF_FFFF && base + c + 1 <= |stream| && row.tokens == stream[base..base + c + 1]
    requires (forall p :: 0 <= p < |stream| ==> 0 <= stream[p] < 0x1_0000) && SmallLengths(row.segmentLengths, c)
    ensures Storable(row, c)
  {
    forall i | 0 <= i < |row.tokens|
      ensures 0 <= row.tokens[i] < 0x1_0000
    {
      assert row.tokens[i] == stream[base + i];
    }
  }

  /** Positive lengths are at most their sum, and so is their number. */
  lemma {:induction false} LengthsBounded(ls: seq<int>)
    requires forall k :: 0 <= k < |ls| ==> ls[k] > 0
    ensures |ls| <= Sum(ls) && forall k :: 0 <= k < |ls| ==> ls[k] <= Sum(ls)
  {
    if ls != [] {
      LengthsBounded(ls[..|ls| - 1]);
    }
  }

  /** A shard as its worker leaves it: the rows it was made of, its bytes, and what its writer reports. */
  datatype ShardOutput = ShardOutput(rows: seq<P.Sample>, file: Data, info: ShardInfo)

  /** Documents, limits and ranges with which a worker cannot fail. */
  ghost predicate WellPlanned(docs: seq<seq<int>>, c: int, maxShardBytes: int, batchSize: int) {
    && CompactTokens(docs) && NoSingles(docs)
    && 2 <= c <= 0x7FFF_FFFF && maxShardBytes >= RecordEstimate(c) + 215 && batchSize > 0
  }

  ghost predicate InStream(docs: seq<seq<int>>, c: int, r: PlanRange) {
    c > 0 && r.start + r.count <= P.Windows(|Flatten(docs)|, c)
  }

  /** The file holds exactly the encodings of the rows of the range, and a file below 2^64 bytes reads back
      as those rows, number by number. */
  ghost predicate HoldsRange(w: ShardOutput, docs: seq<seq<int>>, c: int, r: PlanRange, schemaHash: nat) {
    && InStream(docs, c, r) && c + 1 < 0x8000_0000_0000_0000
    && w.rows == RangeRows(docs, c, r) && Holding(w.file, w.info, w.rows, c, schemaHash)
    && (|w.file| < WORD && schemaHash < WORD ==> HoldsRows(w.file, w.rows))
  }

  /** `write_gdds_range_worker`: `None` stands for its exceptions. A planned range over documents none
      of which is one token long is always written, and its file stays within the limit. */
  method WriteRange(shards: seq<P.Shard>, c: int, r: PlanRange, schemaHash: nat, maxShardBytes: int, batchSize: int)
    returns (result: Option<ShardOutput>)
    requires P.ValidShards(shards)
    ensures var docs := P.AllDocuments(shards);
            WellPlanned(docs, c, maxShardBytes, batchSize) && InStream(docs, c, r)
            && 0 < r.count <= MaxSamplesPerShard(c, maxShardBytes) ==>
              result.Some? && |result.value.file| <= maxShardBytes
    ensures result.Some? ==> HoldsRange(result.value, P.AllDocuments(shards), c, r, schemaHash)
  {
    ghost var docs := P.AllDocuments(shards);
    var rows := PackPlanned(shards, c, r);
    if rows.None? || r.count == 0 || c + 1 >= 0x8000_0000_0000_0000 {
      return None;
    }
    var records := EncodeRows(rows.value, c);
    if CompactTokens(docs) && c <= 0x7FFF_FFFF {
      AllStorable(docs, c, r);
    }
    if records.None? {
      return None;
    }
    if WellPlanned(docs, c, maxShardBytes, batchSize) && r.count <= MaxSamplesPerShard(c, maxShardBytes) {
      PlannedShardFits(docs, c, maxShardBytes, r);
    }
    var limit := Max(0, maxShardBytes);
    var written := WriteRows(rows.value, c, records.value, schemaHash, limit, batchSize);
    if written.None? {
      return None;
    }
    HoldingReads(written.value.0, written.value.1, rows.value, c, schemaHash);
    result := Some(ShardOutput(rows.value, written.value.0, written.value.1));
  }

  lemma {:induction false} AllStorable(docs: seq<seq<int>>, c: nat, r: PlanRange)
    requires 0 < c <= 0x7FFF_FFFF && CompactTokens(docs) && r.count > 0
        && r.start + r.count <= P.Windows(|Flatten(docs)|, c)
    ensures forall i :: 0 <= i < r.count ==> Storable(RangeRows(docs, c, r)[i], c)
  {
    forall i | 0 <= i < r.count
      ensures Storable(RangeRows(docs, c, r)[i], c)
    {
      RowsStorable(docs, c, r.start, r.count, i);
    }
  }

  /** The rows of a range; `None` when the context is below 2 or the stream too short. */
  method PackPlanned(shards: seq<P.Shard>, c: int, r: PlanRange) returns (rows: Option<seq<P.Sample>>)
    requires P.ValidShards(shards)
    ensures r.count > 0 ==> (rows.Some? <==> c >= 2 && InStream(P.AllDocuments(shards), c, r))
    ensures r.count > 0 && rows.Some? ==> rows.value == RangeRows(P.AllDocuments(shards), c, r)
  {
    var packed, status := PackRange(shards, c, r.start, r.count);
    rows := if status.Ok? then Some(packed) else None;
  }

  /** A finished file that holds exactly the encodings of the rows. */
  ghost predicate Holding(file: Data, info: ShardInfo, rows: seq<P.Sample>, c: nat, schemaHash: nat)
    requires c + 1 < 0x8000_0000_0000_0000
  {
    exists schema, records ::
      && |schema| == FieldBase(2) && SchemaOk(StorageFields(c)) && SchemaLayout(schema, 0, StorageFields(c))
      && RowsEncoded(rows, c, records) && Stored(file, info, 2, schema, schemaHash, records)
  }

  lemma {:induction false} HoldingReads(file: Data, info: ShardInfo, rows: seq<P.Sample>, c: nat, schemaHash: nat)
    requires c + 1 < 0x8000_0000_0000_0000 && Holding(file, info, rows, c, schemaHash)
    ensures |file| < WORD && schemaHash < WORD ==> HoldsRows(file, rows)
  {
    if |file| < WORD && schemaHash < WORD {
      var schema, records :| && |schema| == FieldBase(2) && SchemaOk(StorageFields(c))
                             && SchemaLayout(schema, 0, StorageFields(c))
                             && RowsEncoded(rows, c, records) && Stored(file, info, 2, schema, schemaHash, records);
      StoredReads(file, info, rows, c, schema, schemaHash, records);
    }
  }

  lemma {:induction false} StoredReads(file: Data, info: ShardInfo, rows: seq<P.Sample>, c: nat, schema: Data,
        schemaHash: nat, records: seq<Data>)
    requires c + 1 < 0x8000_0000_0000_0000 && SchemaOk(StorageFields(c)) && SchemaLayout(schema, 0, StorageFields(c))
    requires RowsEncoded(rows, c, records) && Stored(file, info, 2, schema, schemaHash, records)
    requires |file| < WORD && schemaHash < WORD
    ensures HoldsRows(file, rows)
  {
    StoredSize(file, info, 2, schema, schemaHash, records);
    AlignUpIsLeast(DataOffset(|schema|) + TotalBytes(records), 64);
    forall i | 0 <= i < |rows|
      ensures HoldsRow(records[i], rows[i])
    {
      assert RowEncoded(rows[i], c, records[i]);
      PartOfTotal(records, i);
      RecordHoldsRow(rows[i], c, records[i]);
    }
    FileHoldsRows(rows, c, schema, schemaHash, records);
  }

  lemma {:induction false} PartOfTotal(records: seq<Data>, i: nat)
    requires i < |records|
    ensures |records[i]| <= TotalBytes(records)
  {
    if i < |records| - 1 {
      PartOfTotal(records[..|records| - 1], i);
    }
  }

  method WriteRows(rows: seq<P.Sample>, c: nat, records: seq<Data>, schemaHash: nat, maxShardBytes: nat, batchSize: int)
    returns (result: Option<(Data, ShardInfo)>)
    requires 0 < c && c + 1 < 0x8000_0000_0000_0000 && RowsEncoded(rows, c, records)
    ensures rows != [] && ShardBytes(rows) <= maxShardBytes && batchSize > 0 ==> result.Some?
    ensures result.Some? ==> rows != [] && |result.value.0| == ShardBytes(rows)
    ensures result.Some? ==> Holding(result.value.0, result.value.1, rows, c, schemaHash)
  {
    StorageFieldsOk(c);
    var schema := EncodeSchema(StorageFields(c));
    FitsAsPredicted(rows, c, records, maxShardBytes);
    RecordsSize(rows, c, records);
    if ShardBytes(rows) <= maxShardBytes && batchSize > 0 {
      FittingIsNeverRefused(DataOffset(|schema|), Some(maxShardBytes), records, batchSize);
    }
    result := WriteShardRecords(2, schema, schemaHash, records, Some(maxShardBytes), batchSize);
    if result.Some? {
      StoredSize(result.value.0, result.value.1, 2, schema, schemaHash, records);
    }
  }
}
