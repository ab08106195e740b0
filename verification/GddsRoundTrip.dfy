/** A finished shard read back: header, schema, index, records. */
module GddsRoundTrip {
  import opened Arith
  import opened Seqs
  import opened Bytes
  import opened GddsSchema
  import opened GddsRecord
  import opened GddsDecode
  import opened GddsShard
  import opened GddsRead

  /** The header as the reader should see it. */
  function ExpectedShard(fields: seq<Field>, schema: Data, schemaHash: nat, records: seq<Data>, recorded: nat): Shard {
    var h := ShardHeader(|fields|, schema, schemaHash, records, recorded);
    Shard(AllAsRead(fields), h.nSamples, h.indexOffset, h.dataOffset, h.dataNbytes, h.schemaHash)
  }

  ghost predicate AllNulFree(fields: seq<Field>) {
    forall i :: 0 <= i < |fields| ==> NulFree(fields[i].name)
  }

  /** The header fields stand where the reader looks for them. */
  ghost predicate HeaderLayout(s: Data, h: HeaderInfo) {
    && At(s, 0, MAGIC) && At(s, 8, LE(1, 4)) && At(s, 12, LE(HEADER_SIZE, 4)) && At(s, 16, LE(h.fieldCount, 4))
    && At(s, 24, LE(h.nSamples, 8)) && At(s, 32, LE(HEADER_SIZE, 8)) && At(s, 40, LE(h.indexOffset, 8))
    && At(s, 48, LE(h.dataOffset, 8)) && At(s, 56, LE(h.dataNbytes, 8)) && At(s, 64, LE(h.schemaHash, 8))
  }

  lemma {:induction false} StartLayout(h: HeaderInfo)
    ensures var s := HeaderStart(h);
            At(s, 0, MAGIC) && At(s, 8, LE(1, 4)) && At(s, 12, LE(HEADER_SIZE, 4)) && At(s, 16, LE(h.fieldCount, 4))
  {
  }

  lemma {:induction false} FieldsLayout(h: HeaderInfo)
    ensures var s := HeaderFields(h);
            && At(s, 0, LE(h.nSamples, 8)) && At(s, 8, LE(HEADER_SIZE, 8)) && At(s, 16, LE(h.indexOffset, 8))
            && At(s, 24, LE(h.dataOffset, 8)) && At(s, 32, LE(h.dataNbytes, 8)) && At(s, 40, LE(h.schemaHash, 8))
  {
  }

  lemma {:induction false} HeaderBytesLayout(file: Data, h: HeaderInfo)
    requires At(file, 0, HeaderBytes(h))
    ensures HeaderLayout(file, h)
  {
    var start, fields := HeaderStart(h), HeaderFields(h);
    StartLayout(h);
    FieldsLayout(h);
    ThreeParts(start, fields, Zeros(56));
    AtNested(file, 0, HeaderBytes(h), 0, start);
    AtNested(file, 0, HeaderBytes(h), 24, fields);
    AtNested(file, 0, start, 0, MAGIC);
    AtNested(file, 0, start, 8, LE(1, 4));
    AtNested(file, 0, start, 12, LE(HEADER_SIZE, 4));
    AtNested(file, 0, start, 16, LE(h.fieldCount, 4));
    AtNested(file, 24, fields, 0, LE(h.nSamples, 8));
    AtNested(file, 24, fields, 8, LE(HEADER_SIZE, 8));
    AtNested(file, 24, fields, 16, LE(h.indexOffset, 8));
    AtNested(file, 24, fields, 24, LE(h.dataOffset, 8));
    AtNested(file, 24, fields, 32, LE(h.dataNbytes, 8));
    AtNested(file, 24, fields, 40, LE(h.schemaHash, 8));
  }

  lemma {:induction false} HeaderNumbers(file: Data, h: HeaderInfo)
    requires HeaderLayout(file, h) && h.fieldCount <= MAX_FIELDS && h.nSamples < WORD && h.indexOffset < WORD
    requires h.dataOffset < WORD && h.dataNbytes < WORD && h.schemaHash < WORD && |file| >= HEADER_SIZE
    ensures file[..8] == MAGIC && U(file, 8, 4) == 1 && U(file, 12, 4) == HEADER_SIZE
    ensures U(file, 16, 4) == h.fieldCount && U(file, 24, 8) == h.nSamples && U(file, 32, 8) == HEADER_SIZE
    ensures U(file, 40, 8) == h.indexOffset && U(file, 48, 8) == h.dataOffset && U(file, 56, 8) == h.dataNbytes
    ensures U(file, 64, 8) == h.schemaHash
  {
    Widths();
    AtSlice(file, 0, MAGIC);
    ReadBack(file, 8, 1, 4);
    ReadBack(file, 12, HEADER_SIZE, 4);
    ReadBack(file, 16, h.fieldCount, 4);
    ReadBack(file, 24, h.nSamples, 8);
    ReadBack(file, 32, HEADER_SIZE, 8);
    ReadBack(file, 40, h.indexOffset, 8);
    ReadBack(file, 48, h.dataOffset, 8);
    ReadBack(file, 56, h.dataNbytes, 8);
    ReadBack(file, 64, h.schemaHash, 8);
  }

  lemma {:induction false} HeaderReads(file: Data, h: HeaderInfo, fields: seq<Field>)
    requires HeaderLayout(file, h) && h.fieldCount == |fields| <= MAX_FIELDS && h.nSamples < WORD
        && h.indexOffset < WORD
    requires h.dataOffset < WORD && h.dataNbytes < WORD && h.schemaHash < WORD && |file| >= HEADER_SIZE
    requires ReadFields(file, HEADER_SIZE, |fields|) == Some(AllAsRead(fields))
    ensures ReadHeader(file)
        == Some(Shard(AllAsRead(fields), h.nSamples, h.indexOffset, h.dataOffset, h.dataNbytes, h.schemaHash))
  {
    HeaderNumbers(file, h);
  }

  lemma {:induction false} EntryReads(file: Data, off: nat, position: nat, record: Data)
    requires At(file, off, PackIndexEntry(position, |record|)) && At(file, position, record) && |file| < WORD
    ensures off + INDEX_ENTRY_SIZE <= |file| && U(file, off, 8) == position && U(file, off + 8, 8) == |record|
    ensures position + |record| <= |file| && file[position..position + |record|] == record
  {
    var entry := PackIndexEntry(position, |record|);
    Widths();
    AtAppend(LE(position, 8), LE(|record|, 8));
    AtNested(file, off, entry, 0, LE(position, 8));
    AtNested(file, off, entry, 8, LE(|record|, 8));
    ReadBack(file, off, position, 8);
    ReadBack(file, off + 8, |record|, 8);
    AtSlice(file, position, record);
  }

  /** Every index entry gives exactly the bytes of its record. */
  lemma {:induction false} IndexRoundTrip(file: Data, base: nat, shard: Shard, records: seq<Data>, i: nat)
    requires At(file, base, Flatten(records)) && At(file, shard.indexOffset, IndexBytes(base, records)) && |file| < WORD
    requires i < |records|
    ensures ReadRecord(file, shard, i) == Some(records[i])
    ensures ReadIndex(file, shard, i) == Some((StartsAt(base, records)[i], |records[i]|))
  {
    var position := StartsAt(base, records)[i];
    RecordAt(file, base, records, i);
    IndexEntryAt(base, records, i);
    AtNested(file, shard.indexOffset, IndexBytes(base, records), IndexBase(i), PackIndexEntry(position, |records[i]|));
    EntryReads(file, shard.indexOffset + IndexBase(i), position, records[i]);
  }

  /** The reader opens the file with this header and finds these records. */
  ghost predicate Readable(file: Data, shard: Shard, records: seq<Data>) {
    && ReadHeader(file) == Some(shard)
    && shard.nSamples == |records|
    && forall i :: 0 <= i < |records| ==> ReadRecord(file, shard, i) == Some(records[i])
  }

  lemma {:induction false} AllRecordsRead(file: Data, base: nat, shard: Shard, records: seq<Data>)
    requires At(file, base, Flatten(records)) && At(file, shard.indexOffset, IndexBytes(base, records)) && |file| < WORD
    ensures forall i :: 0 <= i < |records| ==> ReadRecord(file, shard, i) == Some(records[i])
  {
    forall i | 0 <= i < |records|
      ensures ReadRecord(file, shard, i) == Some(records[i])
    {
      IndexRoundTrip(file, base, shard, records, i);
    }
  }

  /** The sizes of a finished shard fit the 64-bit fields of its header when its file does. */
  ghost predicate SmallEnough(schema: Data, schemaHash: nat, records: seq<Data>, recorded: nat) {
    Projected(DataOffset(|schema|), TotalBytes(records), |records|) < WORD && schemaHash < WORD && recorded < WORD
  }

  /** Schema bytes the reader can handle. */
  ghost predicate SchemaBytes(fields: seq<Field>, schema: Data) {
    SchemaOk(fields) && AllNulFree(fields) && SchemaLayout(schema, 0, fields)
  }

  lemma {:induction false} SchemaReads(file: Data, schema: Data, fields: seq<Field>)
    requires SchemaBytes(fields, schema) && At(file, HEADER_SIZE, schema)
    ensures ReadFields(file, HEADER_SIZE, |fields|) == Some(AllAsRead(fields))
  {
    SchemaMoves(file, HEADER_SIZE, schema, fields);
    SchemaRoundTrip(file, HEADER_SIZE, fields);
  }

  lemma {:induction false} HeaderFits(fieldCount: nat, schema: Data, schemaHash: nat, records: seq<Data>, recorded: nat)
    requires SmallEnough(schema, schemaHash, records, recorded)
    ensures var h := ShardHeader(fieldCount, schema, schemaHash, records, recorded);
            && h.nSamples < WORD && h.indexOffset < WORD && h.dataOffset < WORD && h.dataNbytes < WORD
              && h.schemaHash < WORD
  {
    AlignUpIsLeast(DataOffset(|schema|) + TotalBytes(records), 64);
  }

  /** A finished shard can be opened: the reader recovers the schema, every count and offset, and
      every record. */
  lemma {:induction false} ShardOpens(fields: seq<Field>, schema: Data, schemaHash: nat, records: seq<Data>,
        recorded: nat)
    requires SchemaBytes(fields, schema) && SmallEnough(schema, schemaHash, records, recorded)
    ensures Readable(ShardFile(|fields|, schema, schemaHash, records, recorded),
                     ExpectedShard(fields, schema, schemaHash, records, recorded), records)
  {
    var h := ShardHeader(|fields|, schema, schemaHash, records, recorded);
    SealedLength(HeaderBytes(h), schema, records);
    SealedParts(HeaderBytes(h), schema, records);
    HeaderFits(|fields|, schema, schemaHash, records, recorded);
    OpensFromParts(ShardFile(|fields|, schema, schemaHash, records, recorded), h, fields, schema, records);
  }

  lemma {:induction false} OpensFromParts(file: Data, h: HeaderInfo, fields: seq<Field>, schema: Data,
        records: seq<Data>)
    requires SchemaBytes(fields, schema) && |file| < WORD
    requires At(file, 0, HeaderBytes(h)) && At(file, HEADER_SIZE, schema)
    requires At(file, h.dataOffset, Flatten(records)) && At(file, h.indexOffset, IndexBytes(h.dataOffset, records))
    requires h.fieldCount == |fields| && h.nSamples == |records|
    requires h.nSamples < WORD && h.indexOffset < WORD && h.dataOffset < WORD && h.dataNbytes < WORD
        && h.schemaHash < WORD
    ensures Readable(file, Shard(AllAsRead(fields), h.nSamples, h.indexOffset, h.dataOffset, h.dataNbytes,
        h.schemaHash), records)
  {
    HeaderBytesLayout(file, h);
    SchemaReads(file, schema, fields);
    HeaderReads(file, h, fields);
    AllRecordsRead(file, h.dataOffset,
      Shard(AllAsRead(fields), h.nSamples, h.indexOffset, h.dataOffset, h.dataNbytes, h.schemaHash), records);
  }

  /** The record is the encoding of the sample. */
  ghost predicate Encodes(fields: seq<Field>, sample: Sample, record: Data) {
    SampleOk(fields, sample, |fields|) && RecordLayout(record, Entries(fields, sample, |fields|))
  }

  ghost predicate AllEncode(fields: seq<Field>, samples: seq<Sample>, records: seq<Data>) {
    |samples| == |records| && forall i :: 0 <= i < |records| ==> Encodes(fields, samples[i], records[i])
  }

  lemma {:induction false} SampleRoundTrip(file: Data, shard: Shard, fields: seq<Field>, record: Data, i: nat,
        sample: Sample)
    requires ReadRecord(file, shard, i) == Some(record) && |record| < WORD
    requires shard.fields == AllAsRead(fields) && |fields| <= MAX_FIELDS && Encodes(fields, sample, record)
    ensures ReadSample(file, shard, i) == StoredPart(fields, sample, |fields|)
  {
    AllAsReadMirrors(fields);
    RecordRoundTrip(record, shard.fields, fields, sample);
  }

  function StoredParts(fields: seq<Field>, samples: seq<Sample>): (r: seq<Option<Row>>)
    requires AllOk(fields, samples)
    ensures |r| == |samples| && forall i :: 0 <= i < |r| ==> r[i] == StoredPart(fields, samples[i], |fields|)
  {
    seq(|samples|, i requires 0 <= i < |samples| => StoredPart(fields, samples[i], |fields|))
  }

  ghost predicate AllOk(fields: seq<Field>, samples: seq<Sample>) {
    forall i :: 0 <= i < |samples| ==> SampleOk(fields, samples[i], |fields|)
  }

  /** The stored part of every sample, when all of them can be decoded. */
  function StoredRows(fields: seq<Field>, samples: seq<Sample>): Option<seq<Row>>
    requires AllOk(fields, samples)
  {
    Collect(StoredParts(fields, samples))
  }

  /** Reading a shard gives back the stored part of every sample, in order, and raises exactly when
      one of them cannot be decoded. */
  lemma {:induction false} ShardRoundTrip(file: Data, shard: Shard, fields: seq<Field>, records: seq<Data>,
        samples: seq<Sample>)
    requires Readable(file, shard, records) && shard.fields == AllAsRead(fields) && |fields| <= MAX_FIELDS
        && |file| < WORD
    requires AllOk(fields, samples) && AllEncode(fields, samples, records)
    ensures ReadShard(file) == StoredRows(fields, samples)
  {
    forall i | 0 <= i < |samples|
      ensures SampleResults(file, shard)[i] == StoredParts(fields, samples)[i]
    {
      SampleRoundTrip(file, shard, fields, records[i], i, samples[i]);
    }
    assert SampleResults(file, shard) == StoredParts(fields, samples);
  }
}
