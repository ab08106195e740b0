/** Whole splits: `write_gdds_split`, and reading the files back. */
module GddsSplitFiles {
  import opened Arith
  import opened Seqs
  import opened Bytes
  import opened GddsSchema
  import opened GddsRecord
  import opened GddsShard
  import opened GddsWriter
  import opened GddsSplit
  import opened GddsSplitWriter
  import opened GddsRead
  import opened GddsRoundTrip

  /** The writer after the records of some samples, none of them refused. */
  ghost predicate Written(writer: SplitWriter, records: seq<Data>)
    reads writer, writer.Footprint()
  {
    && writer.Valid() && !writer.finished
    && writer.Model() == Run(DataOffset(|writer.schema|), writer.limit, EMPTY, records)
    && AllAcceptable(DataOffset(|writer.schema|), writer.limit, records)
  }

  method WriteOne(writer: SplitWriter, record: Data, ghost records: seq<Data>) returns (ok: bool)
    requires Written(writer, records)
    modifies writer.Footprint()
    ensures writer.Valid() && fresh(writer.Footprint() - old(writer.Footprint()))
    ensures ok <==> Acceptable(DataOffset(|writer.schema|), writer.limit, record)
    ensures ok ==> Written(writer, records + [record])
  {
    RunStep(DataOffset(|writer.schema|), writer.limit, records, record);
    var status := writer.WriteRecord(record);
    ok := status.Written?;
  }

  lemma {:induction false} RunStep(dataOffset: nat, limit: Option<nat>, records: seq<Data>, record: Data)
    ensures var (next, status) := Step(dataOffset, limit, Run(dataOffset, limit, EMPTY, records), record);
            && Run(dataOffset, limit, EMPTY, records + [record]) == next
            && (status == GddsSplit.Written <==> Acceptable(dataOffset, limit, record))
    ensures AllAcceptable(dataOffset, limit, records) && Acceptable(dataOffset, limit, record) ==>
              AllAcceptable(dataOffset, limit, records + [record])
  {
    assert (records + [record])[..|records|] == records;
    SplitIsLossless(dataOffset, limit, records);
    StepKeeps(dataOffset, limit, Run(dataOffset, limit, EMPTY, records), record);
  }

  /** Size of the record of a sample. */
  function RecordLength(fields: seq<Field>, sample: Sample): (n: nat)
    requires SampleOk(fields, sample, |fields|)
    ensures n >= RECORD_HEADER_SIZE
  {
    HeaderLength(Entries(fields, sample, |fields|)) + PayloadLength(Entries(fields, sample, |fields|))
  }

  /** A shard with just this sample stays within the limit. */
  ghost predicate Storable(fields: seq<Field>, limit: Option<nat>, sample: Sample) {
    && SampleOk(fields, sample, |fields|)
    && (limit.Some? ==> Projected(DataOffset(FieldBase(|fields|)), RecordLength(fields, sample), 1) <= limit.value)
  }

  ghost predicate AllStorable(fields: seq<Field>, limit: Option<nat>, samples: seq<Sample>) {
    forall i :: 0 <= i < |samples| ==> Storable(fields, limit, samples[i])
  }

  lemma {:induction false} StorableIsAcceptable(fields: seq<Field>, limit: Option<nat>, sample: Sample, record: Data)
    requires Encodes(fields, sample, record)
    ensures Storable(fields, limit, sample) <==> Acceptable(DataOffset(FieldBase(|fields|)), limit, record)
  {
    OneRecord(record);
    EncodedLength(fields, sample, record);
  }

  lemma {:induction false} OneRecord(record: Data)
    ensures TotalBytes([record]) == |record|
  {
    assert [record][..0] == [];
  }

  lemma {:induction false} EncodedLength(fields: seq<Field>, sample: Sample, record: Data)
    requires Encodes(fields, sample, record)
    ensures |record| == RecordLength(fields, sample) >= RECORD_HEADER_SIZE
  {
  }

  /** `write_sample`: encode, then write. */
  method WriteSample(writer: SplitWriter, fields: seq<Field>, sample: Sample, ghost records: seq<Data>)
    returns (ok: bool, ghost record: Data)
    requires SchemaOk(fields) && |writer.schema| == FieldBase(|fields|) && Written(writer, records)
    modifies writer.Footprint()
    ensures writer.Valid() && fresh(writer.Footprint() - old(writer.Footprint()))
    ensures ok <==> Storable(fields, writer.limit, sample)
    ensures ok ==> Written(writer, records + [record]) && Encodes(fields, sample, record)
  {
    record := [];
    var encoded := EncodeRecord(fields, sample);
    if encoded.None? {
      return false, record;
    }
    record := encoded.value;
    StorableIsAcceptable(fields, writer.limit, sample, record);
    ok := WriteOne(writer, encoded.value, records);
  }

  /** The records of the samples so far. */
  lemma {:induction false} OneMoreEncoded(fields: seq<Field>, samples: seq<Sample>, i: nat, records: seq<Data>,
        record: Data)
    requires i < |samples| && AllEncode(fields, samples[..i], records) && Encodes(fields, samples[i], record)
    ensures AllEncode(fields, samples[..i + 1], records + [record])
  {
  }

  lemma {:induction false} OneMoreStorable(fields: seq<Field>, limit: Option<nat>, samples: seq<Sample>, i: nat)
    requires i < |samples| && AllStorable(fields, limit, samples[..i]) && Storable(fields, limit, samples[i])
    ensures AllStorable(fields, limit, samples[..i + 1])
  {
    assert samples[..i + 1] == samples[..i] + [samples[i]];
  }

  /** The first `i` samples are written. */
  ghost predicate WrittenTo(writer: SplitWriter, fields: seq<Field>, samples: seq<Sample>, i: nat, records: seq<Data>)
    requires i <= |samples|
    reads writer, writer.Footprint()
  {
    && |writer.schema| == FieldBase(|fields|) && Written(writer, records)
    && AllEncode(fields, samples[..i], records) && AllStorable(fields, writer.limit, samples[..i])
  }

  /** The body of the loop over the samples. */
  method WriteNext(writer: SplitWriter, fields: seq<Field>, samples: seq<Sample>, i: nat, ghost records: seq<Data>)
    returns (ok: bool, ghost more: seq<Data>)
    requires SchemaOk(fields) && i < |samples| && WrittenTo(writer, fields, samples, i, records)
    modifies writer.Footprint()
    ensures writer.Valid() && fresh(writer.Footprint() - old(writer.Footprint()))
    ensures ok <==> Storable(fields, writer.limit, samples[i])
    ensures ok ==> WrittenTo(writer, fields, samples, i + 1, more)
  {
    ghost var record;
    ok, record := WriteSample(writer, fields, samples[i], records);
    more := records + [record];
    if ok {
      OneMoreEncoded(fields, samples, i, records, record);
      OneMoreStorable(fields, writer.limit, samples, i);
    }
  }

  /** The loop over the samples; it stops at the first one that cannot be stored. */
  method WriteSamples(writer: SplitWriter, fields: seq<Field>, samples: seq<Sample>)
    returns (ok: bool, ghost records: seq<Data>)
    requires SchemaOk(fields) && |writer.schema| == FieldBase(|fields|) && Written(writer, [])
    modifies writer.Footprint()
    ensures writer.Valid() && fresh(writer.Footprint() - old(writer.Footprint()))
    ensures ok <==> AllStorable(fields, writer.limit, samples)
    ensures ok ==> WrittenTo(writer, fields, samples, |samples|, records)
  {
    records := [];
    var i := 0;
    while i < |samples|
      invariant i <= |samples| && WrittenTo(writer, fields, samples, i, records)
      invariant fresh(writer.Footprint() - old(writer.Footprint()))
    {
      ok, records := WriteNext(writer, fields, samples, i, records);
      if !ok {
        return;
      }
      i := i + 1;
    }
    AllWritten(writer, fields, samples, records);
    ok := true;
  }

  lemma {:induction false} AllWritten(writer: SplitWriter, fields: seq<Field>, samples: seq<Sample>, records: seq<Data>)
    requires WrittenTo(writer, fields, samples, |samples|, records)
    ensures AllEncode(fields, samples, records) && AllStorable(fields, writer.limit, samples)
  {
    assert samples[..|samples|] == samples;
  }

  /** `write_gdds_split`: false stands for the exception of a bad sample, an oversized record or an
      empty split. */
  method WriteSplit(fields: seq<Field>, samples: seq<Sample>, schemaHash: nat, limit: Option<nat>)
    returns (files: seq<Data>, ok: bool, ghost schema: Data, ghost infos: seq<ShardInfo>, ghost records: seq<Data>)
    requires SchemaOk(fields)
    ensures |schema| == FieldBase(|fields|) && SchemaLayout(schema, 0, fields)
    ensures ok <==> samples != [] && AllStorable(fields, limit, samples)
    ensures ok ==> AllOk(fields, samples) && AllEncode(fields, samples, records)
    ensures ok ==> AllAcceptable(DataOffset(|schema|), limit, records)
    ensures ok ==> AllStored(files, infos, |fields|, schema, schemaHash,
        Run(DataOffset(|schema|), limit, EMPTY, records).Shards())
    ensures ok && AllNulFree(fields) && schemaHash < WORD && SmallFiles(files) ==> ReadsAs(files, fields, samples)
  {
    var encoded := EncodeSchema(fields);
    schema := encoded;
    var writer := new SplitWriter(|fields|, encoded, schemaHash, limit);
    ok, records := WriteSamples(writer, fields, samples);
    if !ok {
      writer.Abort();
      return writer.files, false, schema, [], [];
    }
    AllWritten(writer, fields, samples, records);
    files := writer.Finish();
    infos := writer.infos;
    NoShards(DataOffset(|schema|), limit, records);
    ok := |files| > 0;
    if ok && AllNulFree(fields) && schemaHash < WORD && SmallFiles(files) {
      WrittenReads(fields, schema, schemaHash, limit, samples, records, files, infos);
    }
  }

  lemma {:induction false} NoShards(dataOffset: nat, limit: Option<nat>, records: seq<Data>)
    requires AllAcceptable(dataOffset, limit, records)
    ensures Run(dataOffset, limit, EMPTY, records).Shards() == [] <==> records == []
    ensures Flatten(Run(dataOffset, limit, EMPTY, records).Shards()) == records
  {
    SplitIsLossless(dataOffset, limit, records);
    AllAccepted(dataOffset, limit, records);
    if records == [] {
      assert Run(dataOffset, limit, EMPTY, records) == EMPTY;
    }
  }

  // ---------- reading the split back ----------

  lemma {:induction false} ReadSplitSnoc(files: seq<Data>, file: Data)
    ensures ReadSplit(files + [file]) ==
            if ReadSplit(files).Some? && ReadShard(file).Some?
            then Some(ReadSplit(files).value + [ReadShard(file).value]) else None
  {
    var all := ShardResults(files + [file]);
    assert all[|files|] == ReadShard(file);
    assert forall i :: 0 <= i < |files| ==> all[i] == ShardResults(files)[i];
    if ReadSplit(files).Some? && ReadShard(file).Some? {
      assert ReadSplit(files + [file]).value == ReadSplit(files).value + [ReadShard(file).value];
    }
  }

  lemma {:induction false} StoredRowsAppend(fields: seq<Field>, a: seq<Sample>, b: seq<Sample>)
    requires AllOk(fields, a) && AllOk(fields, b)
    ensures AllOk(fields, a + b)
    ensures StoredRows(fields, a + b) ==
            if StoredRows(fields, a).Some? && StoredRows(fields, b).Some?
            then Some(StoredRows(fields, a).value + StoredRows(fields, b).value) else None
  {
    var all, left, right := StoredParts(fields, a + b), StoredParts(fields, a), StoredParts(fields, b);
    assert forall i :: 0 <= i < |a| ==> all[i] == left[i];
    assert forall i :: 0 <= i < |b| ==> all[|a| + i] == right[i];
    if StoredRows(fields, a).Some? && StoredRows(fields, b).Some? {
      assert StoredRows(fields, a + b).value == StoredRows(fields, a).value + StoredRows(fields, b).value;
    }
  }

  ghost predicate SmallFiles(files: seq<Data>) {
    forall k :: 0 <= k < |files| ==> |files[k]| < WORD
  }

  /** Reading the files gives back the stored part of every sample, in order, whatever the shard
      boundaries; it raises exactly when one sample cannot be decoded. */
  ghost predicate ReadsAs(files: seq<Data>, fields: seq<Field>, samples: seq<Sample>)
    requires AllOk(fields, samples)
  {
    && (ReadSplit(files).Some? <==> StoredRows(fields, samples).Some?)
    && (ReadSplit(files).Some? ==> Flatten(ReadSplit(files).value) == StoredRows(fields, samples).value)
  }

  lemma {:induction false} ReadsAsSnoc(files: seq<Data>, file: Data, fields: seq<Field>, front: seq<Sample>,
        last: seq<Sample>)
    requires AllOk(fields, front) && AllOk(fields, last)
    requires ReadsAs(files, fields, front) && ReadShard(file) == StoredRows(fields, last)
    ensures AllOk(fields, front + last) && ReadsAs(files + [file], fields, front + last)
  {
    ReadSplitSnoc(files, file);
    StoredRowsAppend(fields, front, last);
    if ReadSplit(files + [file]).Some? {
      FlattenSnoc(ReadSplit(files).value, ReadShard(file).value);
    }
  }

  ghost predicate EncodedAs(fields: seq<Field>, samples: seq<Sample>, shards: seq<seq<Data>>) {
    AllOk(fields, samples) && AllEncode(fields, samples, Flatten(shards))
  }

  ghost predicate StoredIn(files: seq<Data>, infos: seq<ShardInfo>, fieldCount: nat, schema: Data, schemaHash: nat,
        shards: seq<seq<Data>>) {
    AllStored(files, infos, fieldCount, schema, schemaHash, shards) && SmallFiles(files) && schemaHash < WORD
  }

  /** The samples of the last shard are the last samples. */
  lemma {:induction false} LastShardSamples(fields: seq<Field>, samples: seq<Sample>, shards: seq<seq<Data>>)
    requires EncodedAs(fields, samples, shards) && shards != []
    ensures var n := |shards| - 1; var m := |Flatten(shards[..n])|;
            && m <= |samples| && samples == samples[..m] + samples[m..]
            && EncodedAs(fields, samples[..m], shards[..n])
            && AllOk(fields, samples[m..]) && AllEncode(fields, samples[m..], shards[n])
  {
    var n, records := |shards| - 1, Flatten(shards);
    var m := |Flatten(shards[..n])|;
    assert records[..m] == Flatten(shards[..n]) && records[m..] == shards[n];
  }

  lemma {:induction false} StoredInFront(files: seq<Data>, infos: seq<ShardInfo>, fieldCount: nat, schema: Data,
        schemaHash: nat, shards: seq<seq<Data>>)
    requires StoredIn(files, infos, fieldCount, schema, schemaHash, shards) && shards != []
    ensures var n := |shards| - 1;
            && |files| == |infos| == |shards|
            && StoredIn(files[..n], infos[..n], fieldCount, schema, schemaHash, shards[..n])
  {
    var n := |shards| - 1;
    forall k | 0 <= k < n
      ensures Stored(files[..n][k], infos[..n][k], fieldCount, schema, schemaHash, shards[..n][k])
          && |files[..n][k]| < WORD
    {
      assert Stored(files[k], infos[k], fieldCount, schema, schemaHash, shards[k]);
    }
  }

  /** A split written from samples and read back. */
  lemma {:induction false} SplitRoundTrip(fields: seq<Field>, schema: Data, schemaHash: nat, samples: seq<Sample>,
        files: seq<Data>, infos: seq<ShardInfo>, shards: seq<seq<Data>>)
    requires SchemaBytes(fields, schema) && EncodedAs(fields, samples, shards)
    requires StoredIn(files, infos, |fields|, schema, schemaHash, shards)
    ensures ReadsAs(files, fields, samples)
    decreases |shards|
  {
    if shards != [] {
      var n := |shards| - 1;
      var m := |Flatten(shards[..n])|;
      LastShardSamples(fields, samples, shards);
      StoredInFront(files, infos, |fields|, schema, schemaHash, shards);
      LastSplit(files);
      SplitRoundTrip(fields, schema, schemaHash, samples[..m], files[..n], infos[..n], shards[..n]);
      LastShardReads(fields, schema, schemaHash, samples[m..], shards[n], files[n], infos[n]);
      ReadsAsSnoc(files[..n], files[n], fields, samples[..m], samples[m..]);
    } else {
      assert StoredRows(fields, samples).value == [];
    }
  }

  /** What a successful write leaves reads back as the samples. */
  lemma {:induction false} WrittenReads(fields: seq<Field>, schema: Data, schemaHash: nat, limit: Option<nat>,
        samples: seq<Sample>, records: seq<Data>, files: seq<Data>, infos: seq<ShardInfo>)
    requires SchemaBytes(fields, schema) && schemaHash < WORD && SmallFiles(files)
    requires AllOk(fields, samples) && AllEncode(fields, samples, records)
    requires AllAcceptable(DataOffset(|schema|), limit, records)
    requires AllStored(files, infos, |fields|, schema, schemaHash,
        Run(DataOffset(|schema|), limit, EMPTY, records).Shards())
    ensures ReadsAs(files, fields, samples)
  {
    var shards := Run(DataOffset(|schema|), limit, EMPTY, records).Shards();
    NoShards(DataOffset(|schema|), limit, records);
    SplitRoundTrip(fields, schema, schemaHash, samples, files, infos, shards);
  }

  /** `iter_split_samples` over the files of a split: the stored part of the samples, in order, up to the
      limit; it raises when one of them cannot be decoded. */
  method IterWritten(files: seq<Data>, ghost fields: seq<Field>, ghost samples: seq<Sample>, limit: Option<nat>)
    returns (rows: seq<Row>, raised: bool)
    requires AllOk(fields, samples) && ReadsAs(files, fields, samples)
    ensures StoredRows(fields, samples).Some? ==> !raised && rows == Limited(StoredRows(fields, samples).value, limit)
    ensures StoredRows(fields, samples).None? && limit.None? ==> raised
  {
    rows, raised := IterSplit(files, limit);
  }

  lemma {:induction false} LastShardReads(fields: seq<Field>, schema: Data, schemaHash: nat, samples: seq<Sample>,
        records: seq<Data>, file: Data, info: ShardInfo)
    requires SchemaBytes(fields, schema)
    requires AllOk(fields, samples) && AllEncode(fields, samples, records)
    requires Stored(file, info, |fields|, schema, schemaHash, records) && |file| < WORD && schemaHash < WORD
    ensures ReadShard(file) == StoredRows(fields, samples)
  {
    StoredSize(file, info, |fields|, schema, schemaHash, records);
    StoredSmall(schema, schemaHash, records);
    ShardOpens(fields, schema, schemaHash, records, TotalBytes(records));
    ShardRoundTrip(file, ExpectedShard(fields, schema, schemaHash, records, TotalBytes(records)), fields, records,
      samples);
  }

  lemma {:induction false} StoredSmall(schema: Data, schemaHash: nat, records: seq<Data>)
    requires Projected(DataOffset(|schema|), TotalBytes(records), |records|) < WORD && schemaHash < WORD
    ensures SmallEnough(schema, schemaHash, records, TotalBytes(records))
  {
    AlignUpIsLeast(DataOffset(|schema|) + TotalBytes(records), 64);
  }
}
