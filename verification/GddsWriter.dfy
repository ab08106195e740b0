/** The streaming shard writer (`_GddsShardWriter`). */
module GddsWriter {
  import opened Arith
  import opened Seqs
  import opened Bytes
  import opened GddsRecord
  import opened GddsShard

  datatype ShardInfo = ShardInfo(samples: nat, fileNbytes: nat, dataNbytes: nat)

  /** The writer refuses a record shorter than a record header. */
  predicate LongEnough(batch: seq<Data>) {
    forall i :: 0 <= i < |batch| ==> |batch[i]| >= RECORD_HEADER_SIZE
  }

  class ShardWriter {
    const fieldCount: nat
    const schema: Data
    const schemaHash: nat
    const dataOffset: nat
    var nSamples: nat
    var dataNbytes: nat
    var cursor: nat
    /** The temporary file and the spooled index. */
    var file: Data
    var index: Data
    var closed: bool
    var info: Option<ShardInfo>
    /** What stands at the final path once the temporary file has been renamed. */
    var published: Option<Data>
    /** The records written so far. */
    ghost var records: seq<Data>
    /** Bytes counted for records of a refused batch that were never written. */
    ghost var drift: nat

    ghost predicate Valid()
      reads this
    {
      && dataOffset == DataOffset(|schema|)
      && nSamples == |records|
      && cursor == dataOffset + TotalBytes(records)
      && dataNbytes == TotalBytes(records) + drift
      && (!closed ==> file == Body(Zeros(HEADER_SIZE), schema, records) && index == IndexBytes(dataOffset, records))
      && (!closed ==> info.None?)
      && (info.Some? <==> published.Some?)
    }

    constructor (fieldCount: nat, schema: Data, schemaHash: nat)
      ensures Valid() && !closed && records == [] && drift == 0
      ensures this.fieldCount == fieldCount && this.schema == schema && this.schemaHash == schemaHash
    {
      this.fieldCount := fieldCount;
      this.schema := schema;
      this.schemaHash := schemaHash;
      dataOffset := DataOffset(|schema|);
      nSamples, dataNbytes, cursor := 0, 0, DataOffset(|schema|);
      file, index := Zeros(HEADER_SIZE) + schema + SchemaPad(schema), [];
      closed, info, published := false, None, None;
      records, drift := [], 0;
      assert Zeros(HEADER_SIZE) + schema + SchemaPad(schema) + [] == Zeros(HEADER_SIZE) + schema + SchemaPad(schema);
    }

    /** `can_fit`: would the finished file with one more record stay within the limit? */
    predicate CanFit(recordNbytes: nat, limit: Option<nat>)
      reads this
    {
      limit.None? || Projected(dataOffset, dataNbytes + recordNbytes, nSamples + 1) <= limit.value
    }

    /** `write_records`: false stands for the `ValueError`. A batch with a record that is too short
        is refused as a whole, but the sizes before that record have been counted already. */
    method WriteRecords(batch: seq<Data>) returns (ok: bool)
      requires Valid()
      modifies this
      ensures Valid()
      ensures ok <==> !old(closed) && LongEnough(batch)
      ensures records == if ok then old(records) + batch else old(records)
      ensures ok ==> drift == old(drift)
      ensures !ok ==> unchanged(`file) && unchanged(`index) && unchanged(`cursor)
      ensures unchanged(`closed) && unchanged(`info) && unchanged(`published)
    {
      if closed {
        return false;
      }
      var entries, payload, counted, fits := PackBatch(batch, cursor);
      if !fits {
        dataNbytes := dataNbytes + counted;
        drift := drift + counted;
        return false;
      }
      Append(batch, entries, payload);
      ok := true;
    }

    /** The writes at the end of a successful batch. */
    method Append(batch: seq<Data>, entries: Data, payload: Data)
      requires Valid() && !closed && entries == IndexBytes(cursor, batch) && payload == Flatten(batch)
      modifies this`dataNbytes, this`index, this`file, this`cursor, this`nSamples, this`records
      ensures Valid() && records == old(records) + batch
    {
      BodyAppend(Zeros(HEADER_SIZE), schema, records, batch);
      IndexBytesAppend(dataOffset, records, batch);
      TotalAppend(records, batch);
      TotalIsLength(batch);
      dataNbytes := dataNbytes + |payload|;
      index := index + entries;
      file := file + payload;
      cursor := cursor + |payload|;
      nSamples := nSamples + |batch|;
      records := records + batch;
    }

    /** `finalize`: `None` stands for the `ValueError`s of an aborted or empty shard. */
    method Finalize() returns (r: Option<ShardInfo>)
      requires Valid()
      modifies this
      ensures Valid() && closed
      ensures r == info
      ensures r.Some? <==> if old(closed) then old(info).Some? else old(records) != []
      ensures old(closed) ==> info == old(info) && published == old(published)
      ensures !old(closed) && r.Some? ==>
                && published.value == ShardFile(fieldCount, schema, schemaHash, records, dataNbytes)
                && r.value == ShardInfo(|records|, |published.value|, dataNbytes)
      ensures records == old(records) && drift == old(drift) && dataNbytes == old(dataNbytes)
    {
      if closed {
        return info;
      }
      if nSamples == 0 {
        Abort();
        return None;
      }
      var fileNbytes := AlignUp(cursor, 64) + IndexBase(nSamples);
      file := Complete(file, index, cursor, fieldCount, schema, schemaHash, dataOffset, dataNbytes, nSamples, records);
      published := Some(file);
      closed := true;
      info := Some(ShardInfo(nSamples, fileNbytes, dataNbytes));
      r := info;
    }

    /** `abort`: an open shard disappears; a closed one stays as it is. */
    method Abort()
      requires Valid()
      modifies this
      ensures Valid() && closed
      ensures info == old(info) && published == old(published) && records == old(records) && drift == old(drift)
    {
      closed := true;
    }
  }

  /** The loop of `write_records`: pack entries and payload until a record is too short. */
  method PackBatch(batch: seq<Data>, cursor: nat) returns (entries: Data, payload: Data, counted: nat, fits: bool)
    ensures fits <==> LongEnough(batch)
    ensures fits ==> entries == IndexBytes(cursor, batch) && payload == Flatten(batch) && counted == |payload|
  {
    var position, i := cursor, 0;
    entries, payload, counted := [], [], 0;
    while i < |batch|
      invariant 0 <= i <= |batch|
      invariant LongEnough(batch[..i])
      invariant entries == IndexBytes(cursor, batch[..i]) && payload == Flatten(batch[..i])
      invariant counted == |payload| == TotalBytes(batch[..i]) && position == cursor + counted
    {
      var record := batch[i];
      if |record| < RECORD_HEADER_SIZE {
        return entries, payload, counted, false;
      }
      assert batch[..i + 1] == batch[..i] + [record];
      IndexBytesSnoc(cursor, batch[..i], record);
      TotalSnoc(batch[..i], record);
      FlattenSnoc(batch[..i], record);
      entries := entries + PackIndexEntry(position, |record|);
      payload := payload + record;
      position := position + |record|;
      counted := counted + |record|;
      i := i + 1;
    }
    assert batch[..i] == batch;
    fits := true;
  }

  /** The last writes of `finalize`: padding, index, then the header over the zeros at the front. */
  method Complete(body: Data, index: Data, cursor: nat, fieldCount: nat, schema: Data, schemaHash: nat,
        dataOffset: nat, dataNbytes: nat, nSamples: nat, ghost records: seq<Data>) returns (file: Data)
    requires body == Body(Zeros(HEADER_SIZE), schema, records) && index == IndexBytes(dataOffset, records)
    requires nSamples == |records| && dataOffset == DataOffset(|schema|) && cursor == dataOffset + TotalBytes(records)
    ensures |file| == AlignUp(cursor, 64) + IndexBase(nSamples)
    ensures file == ShardFile(fieldCount, schema, schemaHash, records, dataNbytes)
  {
    BodyLength(Zeros(HEADER_SIZE), schema, records);
    file := body + DataPad(cursor) + index;
    var indexOffset := AlignUp(cursor, 64);
    var header := BuildHeader(HeaderInfo(fieldCount, nSamples, indexOffset, dataOffset, dataNbytes, schemaHash));
    HeadReplaced(Zeros(HEADER_SIZE), header, schema, records);
    SealedLength(header, schema, records);
    file := PackInto(file, 0, header);
    file := Truncate(file, indexOffset + IndexBase(nSamples));
  }

  method Truncate(file: Data, length: nat) returns (r: Data)
    requires length <= |file|
    ensures |r| == length && (length == |file| ==> r == file)
  {
    r := file[..length];
  }
}
