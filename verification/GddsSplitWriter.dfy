/** The streaming split writer (`GddsSplitWriter`). */
module GddsSplitWriter {
  import opened Seqs
  import opened Bytes
  import opened GddsRecord
  import opened GddsShard
  import opened GddsWriter
  import opened GddsSplit

  /** One finished shard: its file holds exactly these records. */
  ghost predicate Stored(file: Data, info: ShardInfo, fieldCount: nat, schema: Data, schemaHash: nat,
        records: seq<Data>) {
    && file == ShardFile(fieldCount, schema, schemaHash, records, TotalBytes(records))
    && info == ShardInfo(|records|, |file|, TotalBytes(records))
  }

  ghost predicate AllStored(files: seq<Data>, infos: seq<ShardInfo>, fieldCount: nat, schema: Data, schemaHash: nat,
        shards: seq<seq<Data>>) {
    && |files| == |infos| == |shards|
    && forall k :: 0 <= k < |shards| ==> Stored(files[k], infos[k], fieldCount, schema, schemaHash, shards[k])
  }

  lemma {:induction false} OneMoreStored(files: seq<Data>, infos: seq<ShardInfo>, fieldCount: nat, schema: Data,
        schemaHash: nat, shards: seq<seq<Data>>, file: Data, info: ShardInfo, records: seq<Data>)
    requires AllStored(files, infos, fieldCount, schema, schemaHash, shards)
    requires Stored(file, info, fieldCount, schema, schemaHash, records)
    ensures AllStored(files + [file], infos + [info], fieldCount, schema, schemaHash, shards + [records])
  {
    forall k | 0 <= k < |shards| + 1
      ensures Stored((files + [file])[k], (infos + [info])[k], fieldCount, schema, schemaHash, (shards + [records])[k])
    {
      if k < |shards| {
        assert Stored(files[k], infos[k], fieldCount, schema, schemaHash, shards[k]);
      }
    }
  }

  /** A stored shard has exactly the projected size. */
  lemma {:induction false} StoredSize(file: Data, info: ShardInfo, fieldCount: nat, schema: Data, schemaHash: nat,
        records: seq<Data>)
    requires Stored(file, info, fieldCount, schema, schemaHash, records)
    ensures |file| == Projected(DataOffset(|schema|), TotalBytes(records), |records|)
  {
    SealedLength(HeaderBytes(ShardHeader(fieldCount, schema, schemaHash, records, TotalBytes(records))), schema,
      records);
  }

  class SplitWriter {
    const fieldCount: nat
    const schema: Data
    const schemaHash: nat
    const limit: Option<nat>
    var current: ShardWriter?
    var infos: seq<ShardInfo>
    var finished: bool
    /** The shard files in the split directory, in order. */
    var files: seq<Data>
    /** The records of each of them. */
    ghost var done: seq<seq<Data>>

    ghost function Footprint(): set<object>
      reads this
    {
      if current == null then {this} else {this, current}
    }

    ghost predicate Valid()
      reads this, Footprint()
    {
      && (current != null ==> OpenShard(current))
      && AllStored(files, infos, fieldCount, schema, schemaHash, done)
    }

    ghost predicate OpenShard(w: ShardWriter)
      reads this, w
    {
      && w.Valid() && !w.closed && w.drift == 0
      && w.fieldCount == fieldCount && w.schema == schema && w.schemaHash == schemaHash
    }

    /** The split so far, as the specification sees it. */
    ghost function Model(): State
      reads this, Footprint()
    {
      State(done, if current == null then [] else current.records)
    }

    constructor (fieldCount: nat, schema: Data, schemaHash: nat, limit: Option<nat>)
      ensures Valid() && fresh(Footprint()) && Model() == EMPTY && !finished
      ensures this.fieldCount == fieldCount && this.schema == schema && this.schemaHash == schemaHash
          && this.limit == limit
    {
      this.fieldCount, this.schema, this.schemaHash, this.limit := fieldCount, schema, schemaHash, limit;
      current, infos, finished, files := null, [], false, [];
      done := [];
    }

    /** `_finish_current` on a shard with records. */
    method FinishCurrent()
      requires Valid() && current != null && current.records != []
      modifies this, current
      ensures Valid() && current == null && Model() == State(old(Model()).Shards(), [])
      ensures finished == old(finished)
    {
      var w := current;
      var info := w.Finalize();
      OneMoreStored(files, infos, fieldCount, schema, schemaHash, done, w.published.value, info.value, w.records);
      infos := infos + [info.value];
      files := files + [w.published.value];
      done := done + [w.records];
      current := null;
    }

    /** `_start_shard`. */
    method StartShard()
      requires Valid() && current == null
      modifies this`current
      ensures Valid() && current != null && fresh(current) && current.records == [] && Model() == old(Model())
    {
      current := new ShardWriter(fieldCount, schema, schemaHash);
    }

    /** The open shard has room for one more record. */
    predicate HasRoom(recordNbytes: nat)
      requires current != null
      reads this, current
    {
      current.CanFit(recordNbytes, limit)
    }

    /** Open a shard that the record may go to: the current one, or a new one when it has no room. */
    method Rotate(record: Data)
      requires Valid()
      modifies Footprint()
      ensures Valid() && current != null && fresh(Footprint() - old(Footprint())) && finished == old(finished)
      ensures var st := old(Model());
              Model() == if st.current != [] && Fits(DataOffset(|schema|), limit, st.current + [record]) then st
                         else State(st.Shards(), [])
    {
      if current == null {
        StartShard();
      }
      RoomIsFits(current, record);
      if current.nSamples > 0 && !HasRoom(|record|) {
        FinishCurrent();
        StartShard();
      }
    }

    lemma {:induction false} RoomIsFits(w: ShardWriter, record: Data)
      requires OpenShard(w)
      ensures w.CanFit(|record|, limit) <==> Fits(DataOffset(|schema|), limit, w.records + [record])
    {
      TotalSnoc(w.records, record);
    }

    /** The write itself. */
    method Put(record: Data)
      requires Valid() && current != null && |record| >= RECORD_HEADER_SIZE
      modifies current
      ensures Valid() && Model() == State(done, old(current.records) + [record])
    {
      var ok := current.WriteRecords([record]);
    }

    /** `write_record`. */
    method WriteRecord(record: Data) returns (status: Status)
      requires Valid()
      modifies Footprint()
      ensures Valid() && fresh(Footprint() - old(Footprint())) && finished == old(finished)
      ensures old(finished) ==> status == AlreadyFinished && Model() == old(Model())
      ensures !old(finished) ==> (Model(), status) == Step(DataOffset(|schema|), limit, old(Model()), record)
    {
      if finished {
        return AlreadyFinished;
      }
      if |record| < RECORD_HEADER_SIZE {
        return TooSmall;
      }
      Rotate(record);
      RoomIsFits(current, record);
      assert [] + [record] == [record];
      if current.nSamples == 0 && !HasRoom(|record|) {
        current.Abort();
        current := null;
        return TooLarge;
      }
      Put(record);
      status := Written;
    }

    /** `finish`: an open shard with records becomes the last file. */
    method Finish() returns (result: seq<Data>)
      requires Valid()
      modifies Footprint()
      ensures Valid() && finished && result == files && fresh(Footprint() - old(Footprint()))
      ensures old(finished) ==> Model() == old(Model())
      ensures !old(finished) ==> current == null && Model() == State(old(Model()).Shards(), [])
    {
      if finished {
        return files;
      }
      if current != null {
        if current.nSamples == 0 {
          current.Abort();
          current := null;
        } else {
          FinishCurrent();
        }
      }
      finished := true;
      result := files;
    }

    /** `abort`: the open shard disappears, finished ones stay. */
    method Abort()
      requires Valid()
      modifies Footprint()
      ensures Valid() && finished && current == null && files == old(files) && Model() == State(old(Model()).done, [])
    {
      if current != null {
        current.Abort();
        current := null;
      }
      finished := true;
    }
  }
}
