/** Writing one shard in batches (`write_gdds_shard_records`), and what its size check really checks. */
module GddsBatch {
  import opened Arith
  import opened Seqs
  import opened Bytes
  import opened GddsShard
  import opened GddsWriter
  import opened GddsSplit
  import opened GddsSplitWriter

  /** How many of the first `i` records have been read but not yet written when record `i` is checked. */
  function Waiting(i: nat, batchSize: nat): (w: nat)
    requires batchSize > 0
    ensures w < batchSize && w <= i
  {
    if i == 0 || Waiting(i - 1, batchSize) + 1 >= batchSize then 0 else Waiting(i - 1, batchSize) + 1
  }

  /** The check of record `i` against the records already written. */
  predicate CheckPasses(dataOffset: nat, limit: Option<nat>, records: seq<Data>, i: nat, batchSize: nat)
    requires i < |records| && batchSize > 0
  {
    Fits(dataOffset, limit, records[..i - Waiting(i, batchSize)] + [records[i]])
  }

  ghost predicate ChecksPass(dataOffset: nat, limit: Option<nat>, records: seq<Data>, n: nat, batchSize: nat)
    requires n <= |records| && batchSize > 0
  {
    forall i :: 0 <= i < n ==> CheckPasses(dataOffset, limit, records, i, batchSize)
  }

  /** The writer has taken the first `n - Waiting(n)` records, the rest wait in the batch. */
  ghost predicate Batched(writer: ShardWriter, batch: seq<Data>, records: seq<Data>, n: nat, batchSize: nat)
    requires n <= |records| && batchSize > 0
    reads writer
  {
    && writer.Valid() && !writer.closed && writer.drift == 0
    && batch == records[n - Waiting(n, batchSize)..n] && writer.records == records[..n - Waiting(n, batchSize)]
    && LongEnough(writer.records)
  }

  lemma {:induction false} CheckIsCanFit(writer: ShardWriter, batch: seq<Data>, records: seq<Data>, n: nat,
        batchSize: nat, limit: Option<nat>)
    requires n < |records| && batchSize > 0 && Batched(writer, batch, records, n, batchSize)
    ensures writer.CanFit(|records[n]|, limit)
        <==> CheckPasses(DataOffset(|writer.schema|), limit, records, n, batchSize)
  {
    TotalSnoc(writer.records, records[n]);
  }

  /** One record: check, batch, and write the batch when it is full. */
  method TakeRecord(writer: ShardWriter, batch: seq<Data>, ghost records: seq<Data>, ghost n: nat, record: Data,
        batchSize: nat)
    returns (rest: seq<Data>, ok: bool)
    requires n < |records| && record == records[n] && batchSize > 0 && Batched(writer, batch, records, n, batchSize)
    modifies writer
    ensures writer.Valid() && unchanged(writer`closed)
    ensures ok ==> Batched(writer, rest, records, n + 1, batchSize)
    ensures !ok ==> !LongEnough(records)
  {
    rest := batch + [record];
    ghost var k := n - Waiting(n, batchSize);
    assert batch == records[k..n];
    assert rest == records[k..n + 1];
    if |rest| < batchSize {
      return rest, true;
    }
    assert records[..n + 1] == writer.records + rest;
    NotLongEnough(records, n - Waiting(n, batchSize), n + 1);
    BothLongEnough(writer.records, rest);
    ok := writer.WriteRecords(rest);
    rest := [];
  }

  lemma {:induction false} NotLongEnough(records: seq<Data>, i: nat, j: nat)
    requires i <= j <= |records|
    ensures LongEnough(records) ==> LongEnough(records[i..j])
  {
  }

  /** `write_gdds_shard_records`: `None` stands for its exceptions. */
  method WriteShardRecords(fieldCount: nat, schema: Data, schemaHash: nat, records: seq<Data>, limit: Option<nat>,
        batchSize: int)
    returns (r: Option<(Data, ShardInfo)>)
    ensures r.Some? <==> batchSize > 0 && records != [] && LongEnough(records)
                         && ChecksPass(DataOffset(|schema|), limit, records, |records|, batchSize)
    ensures r.Some? ==> Stored(r.value.0, r.value.1, fieldCount, schema, schemaHash, records)
  {
    if batchSize <= 0 {
      return None;
    }
    var writer := new ShardWriter(fieldCount, schema, schemaHash);
    var batch: seq<Data> := [];
    for i := 0 to |records|
      invariant Batched(writer, batch, records, i, batchSize) && fresh(writer)
      invariant writer.fieldCount == fieldCount && writer.schema == schema && writer.schemaHash == schemaHash
      invariant ChecksPass(DataOffset(|schema|), limit, records, i, batchSize)
    {
      CheckIsCanFit(writer, batch, records, i, batchSize, limit);
      if !writer.CanFit(|records[i]|, limit) {
        writer.Abort();
        return None;
      }
      var ok;
      batch, ok := TakeRecord(writer, batch, records, i, records[i], batchSize);
      if !ok {
        writer.Abort();
        return None;
      }
    }
    r := CloseShard(writer, batch, records, batchSize);
  }

  /** The last batch, then `finalize`. */
  method CloseShard(writer: ShardWriter, batch: seq<Data>, ghost records: seq<Data>, ghost batchSize: nat)
    returns (r: Option<(Data, ShardInfo)>)
    requires batchSize > 0 && Batched(writer, batch, records, |records|, batchSize)
    modifies writer
    ensures r.Some? <==> records != [] && LongEnough(records)
    ensures r.Some? ==> Stored(r.value.0, r.value.1, writer.fieldCount, writer.schema, writer.schemaHash, records)
  {
    assert records == writer.records + batch;
    BothLongEnough(writer.records, batch);
    if |batch| > 0 {
      var ok := writer.WriteRecords(batch);
      if !ok {
        writer.Abort();
        return None;
      }
    }
    assert writer.records == records;
    r := Publish(writer);
  }

  method Publish(writer: ShardWriter) returns (r: Option<(Data, ShardInfo)>)
    requires writer.Valid() && !writer.closed && writer.drift == 0
    modifies writer
    ensures r.Some? <==> old(writer.records) != []
    ensures r.Some? ==> Stored(r.value.0, r.value.1, writer.fieldCount, writer.schema, writer.schemaHash,
        old(writer.records))
  {
    var info := writer.Finalize();
    if info.None? {
      return None;
    }
    r := Some((writer.published.value, info.value));
  }

  lemma {:induction false} BothLongEnough(a: seq<Data>, b: seq<Data>)
    ensures LongEnough(a + b) <==> LongEnough(a) && LongEnough(b)
  {
    if LongEnough(a + b) {
      NotLongEnough(a + b, 0, |a|);
      NotLongEnough(a + b, |a|, |a + b|);
      assert (a + b)[0..|a|] == a && (a + b)[|a|..] == b;
    }
  }

  /** Records that fit together are never refused, whatever the batch size. */
  lemma {:induction false} FittingIsNeverRefused(dataOffset: nat, limit: Option<nat>, records: seq<Data>,
        batchSize: nat)
    requires batchSize > 0 && Fits(dataOffset, limit, records)
    ensures ChecksPass(dataOffset, limit, records, |records|, batchSize)
  {
    forall i | 0 <= i < |records|
      ensures CheckPasses(dataOffset, limit, records, i, batchSize)
    {
      PartFits(dataOffset, limit, records, 0, i + 1);
      FewerFit(dataOffset, limit, records, i - Waiting(i, batchSize), i);
    }
  }

  /** Leaving out the records that wait leaves less. */
  lemma {:induction false} FewerFit(dataOffset: nat, limit: Option<nat>, records: seq<Data>, k: nat, i: nat)
    requires k <= i < |records| && Fits(dataOffset, limit, records[0..i + 1])
    ensures Fits(dataOffset, limit, records[..k] + [records[i]])
  {
    assert records[0..i + 1] == records[..i] + [records[i]] && records[..i] == records[..k] + records[k..i];
    TotalAppend(records[..i], [records[i]]);
    TotalAppend(records[..k], records[k..i]);
    TotalAppend(records[..k], [records[i]]);
    FitsMonotone(dataOffset, limit, records[..k] + [records[i]], records[0..i + 1]);
  }

  lemma {:induction false} WaitingInFirstBatch(i: nat, batchSize: nat)
    requires i < batchSize
    ensures Waiting(i, batchSize) == i
  {
    if i > 0 {
      WaitingInFirstBatch(i - 1, batchSize);
    }
  }

  // ---------- when the limit is kept ----------

  lemma {:induction false} WaitingIsRemainder(i: nat, batchSize: nat)
    requires batchSize > 0
    ensures Waiting(i, batchSize) == i % batchSize
  {
    if i == 0 {
      DivUnique(0, batchSize, 0, 0);
    } else {
      WaitingIsRemainder(i - 1, batchSize);
      DivMod(i - 1, batchSize);
      var q, r := (i - 1) / batchSize, (i - 1) % batchSize;
      if r + 1 == batchSize {
        assert (q + 1) * batchSize == q * batchSize + batchSize;
        DivUnique(i, batchSize, q + 1, 0);
      } else {
        DivUnique(i, batchSize, q, r + 1);
      }
    }
  }

  /** The checks keep the limit: they all pass exactly when the whole shard fits. */
  ghost predicate KeepsLimit(dataOffset: nat, limit: Option<nat>, records: seq<Data>, batchSize: nat)
    requires batchSize > 0
  {
    ChecksPass(dataOffset, limit, records, |records|, batchSize) <==> Fits(dataOffset, limit, records)
  }

  /** When nothing waits at the last check, the last check is the check of the whole shard. */
  lemma {:induction false} LastCheckDecides(dataOffset: nat, limit: Option<nat>, records: seq<Data>, batchSize: nat)
    requires batchSize > 0 && records != [] && Waiting(|records| - 1, batchSize) == 0
    ensures KeepsLimit(dataOffset, limit, records, batchSize)
  {
    var n := |records|;
    assert records[..n - 1] + [records[n - 1]] == records;
    if ChecksPass(dataOffset, limit, records, n, batchSize) {
      assert CheckPasses(dataOffset, limit, records, n - 1, batchSize);
    }
    if Fits(dataOffset, limit, records) {
      FittingIsNeverRefused(dataOffset, limit, records, batchSize);
    }
  }

  /** `n` records of 64 bytes. */
  function Blocks(n: nat): (records: seq<Data>)
    ensures |records| == n && forall i :: 0 <= i < n ==> |records[i]| == 64
  {
    seq(n, i => Zeros(64))
  }

  lemma {:induction false} SizeOfBlocks(records: seq<Data>)
    requires forall i :: 0 <= i < |records| ==> |records[i]| == 64
    ensures TotalBytes(records) == 64 * |records|
  {
    if records != [] {
      SizeOfBlocks(records[..|records| - 1]);
    }
  }

  /** The size of a shard of `n` blocks. */
  function BlocksSize(dataOffset: nat, n: nat): nat { Projected(dataOffset, 64 * n, n) }

  lemma {:induction false} BlocksGrow(dataOffset: nat, m: nat, n: nat)
    requires m < n
    ensures BlocksSize(dataOffset, m) < BlocksSize(dataOffset, n)
  {
    AlignUpMonotone(dataOffset + 64 * m, dataOffset + 64 * n, 64);
  }

  /** When a record waits at the last check, blocks can be written that do not fit. */
  lemma {:induction false} WaitingLosesLimit(dataOffset: nat, n: nat, batchSize: nat)
    requires batchSize > 0 && n > 0 && Waiting(n - 1, batchSize) > 0
    ensures ChecksPass(dataOffset, Some(BlocksSize(dataOffset, n - 1)), Blocks(n), n, batchSize)
    ensures !Fits(dataOffset, Some(BlocksSize(dataOffset, n - 1)), Blocks(n))
  {
    var limit := Some(BlocksSize(dataOffset, n - 1));
    SizeOfBlocks(Blocks(n));
    BlocksGrow(dataOffset, n - 1, n);
    forall i | 0 <= i < n
      ensures CheckPasses(dataOffset, limit, Blocks(n), i, batchSize)
    {
      BlocksChecked(dataOffset, n, i - Waiting(i, batchSize) + 1, i);
    }
  }

  /** Fewer blocks than all of them pass. */
  lemma {:induction false} BlocksChecked(dataOffset: nat, n: nat, m: nat, i: nat)
    requires 0 < m < n && i < n
    ensures Fits(dataOffset, Some(BlocksSize(dataOffset, n - 1)), Blocks(n)[..m - 1] + [Blocks(n)[i]])
  {
    SizeOfBlocks(Blocks(n)[..m - 1] + [Blocks(n)[i]]);
    if m < n - 1 {
      BlocksGrow(dataOffset, m, n - 1);
    }
  }

  /** Exactly when the limit is kept: for a number of records that leaves nothing waiting at the last
      check, that is one more than a multiple of the batch size. */
  lemma {:induction false} LimitExact(dataOffset: nat, n: nat, batchSize: nat)
    requires batchSize > 0 && n > 0
    ensures (forall limit, records :: |records| == n ==> KeepsLimit(dataOffset, limit, records, batchSize))
            <==> (n - 1) % batchSize == 0
  {
    WaitingIsRemainder(n - 1, batchSize);
    if (n - 1) % batchSize == 0 {
      forall limit, records | |records| == n
        ensures KeepsLimit(dataOffset, limit, records, batchSize)
      {
        LastCheckDecides(dataOffset, limit, records, batchSize);
      }
    } else {
      WaitingLosesLimit(dataOffset, n, batchSize);
      assert !KeepsLimit(dataOffset, Some(BlocksSize(dataOffset, n - 1)), Blocks(n), batchSize);
    }
  }

  /** Two records of 64 bytes in one batch pass every check against a limit of 592 bytes, and the shard
      has 608. */
  lemma {:induction false} TooLargeShardPasses()
    ensures ChecksPass(448, Some(592), Blocks(2), 2, 2) && !Fits(448, Some(592), Blocks(2)) && BlocksSize(448, 2) == 608
  {
    SizeOfBlocks(Blocks(2));
    assert AlignUp(448 + 128, 64) == 576;
    assert BlocksSize(448, 2) == 576 + IndexBase(2);
    forall i | 0 <= i < 2
      ensures CheckPasses(448, Some(592), Blocks(2), i, 2)
    {
      WaitingInFirstBatch(i, 2);
      var checked := Blocks(2)[..0] + [Blocks(2)[i]];
      SizeOfBlocks(checked);
      assert AlignUp(448 + 64, 64) == 512;
    }
  }
}
