/** Whole tokenization runs: packed text and JSONL (`gd_tok_run_packed_text`, `gd_tok_run_jsonl`). */
module TokRuns {
  import opened Arith
  import opened Seqs
  import opened TokCorpus
  import opened TokWriter
  import opened TokSplit
  import P = Packing

  const SHARD_MAX_BYTES: nat := 2147483648

  // ---------- a run of the writer ----------

  /** The sequences of every shard of the list can be read back. */
  lemma {:induction false} ShardsRead(variable: bool, limit: nat, seqLen: nat, done: seq<seq<seq<int>>>)
    requires forall k :: 0 <= k < |done| ==> GoodShard(variable, limit, done[k])
    requires variable || (seqLen > 0 && forall k :: 0 <= k < |done| ==> AllOfLength(done[k], seqLen))
    ensures IterSequences(AllShards(variable, done), variable, seqLen) == Some(Flatten(done))
  {
    var results := ShardSequences(AllShards(variable, done), variable, seqLen);
    forall k | 0 <= k < |done|
      ensures results[k] == Some(done[k])
    {
      if variable {
        JsonlRoundTrip(done[k]);
      } else {
        PackedRoundTrip(done[k], seqLen);
      }
    }
    CollectIs(results, done);
  }

  lemma {:induction false} PartsOfLength(done: seq<seq<seq<int>>>, rs: seq<seq<int>>, n: nat, k: nat)
    requires Flatten(done) == rs && AllOfLength(rs, n) && k < |done|
    ensures AllOfLength(done[k], n)
  {
    FlattenAt(done, k);
    var lo := |Flatten(done[..k])|;
    forall i | 0 <= i < |done[k]|
      ensures |done[k][i]| == n
    {
      assert done[k][i] == rs[lo + i];
    }
  }

  /** Sequences per shard and tokens per shard add up to the totals. */
  function SumSequences(shards: seq<TokShard>): nat {
    if shards == [] then 0 else SumSequences(shards[..|shards| - 1]) + shards[|shards| - 1].sequences
  }

  function SumTokens(shards: seq<TokShard>): nat {
    if shards == [] then 0 else SumTokens(shards[..|shards| - 1]) + shards[|shards| - 1].tokenCount
  }

  lemma {:induction false} SumsAddUp(variable: bool, done: seq<seq<seq<int>>>)
    ensures SumSequences(AllShards(variable, done)) == |Flatten(done)|
    ensures SumTokens(AllShards(variable, done)) == |Flatten(Flatten(done))|
  {
    if done != [] {
      var n := |done| - 1;
      SumsAddUp(variable, done[..n]);
      AllShardsSnoc(variable, done[..n], done[n]);
      assert done[..n] + [done[n]] == done;
      FlattenAppend(Flatten(done[..n]), done[n]);
    }
  }

  /** Bytes that the first sequence of a shard takes up in the files. */
  function FirstBytes(shard: TokShard, variable: bool, seqLen: nat): nat {
    if variable && |shard.offsets| > 1 then 4 * shard.offsets[1] + 8 else 4 * seqLen
  }

  /** No shard has room for the sequence that opens the next one. */
  ghost predicate FilledShards(shards: seq<TokShard>, variable: bool, limit: nat, seqLen: nat) {
    forall k :: 0 <= k < |shards| - 1 ==> shards[k].nbytes + FirstBytes(shards[k + 1], variable, seqLen) > limit
  }

  /** A corpus written from sequences: it reads back as those sequences, in order; no shard exceeds the
      limit, and none has room for the next sequence; the counts of the shards add up. */
  ghost predicate Corpus(shards: seq<TokShard>, variable: bool, limit: nat, seqLen: nat, rs: seq<seq<int>>) {
    && IterSequences(shards, variable, seqLen) == Some(rs)
    && (forall k :: 0 <= k < |shards| ==> shards[k].nbytes <= limit && shards[k].sequences > 0)
    && FilledShards(shards, variable, limit, seqLen)
    && SumSequences(shards) == |rs| && SumTokens(shards) == |Flatten(rs)|
  }

  lemma {:induction false} ShardsFilled(variable: bool, limit: nat, seqLen: nat, done: seq<seq<seq<int>>>)
    requires Filled(variable, limit, done)
    requires variable || forall k :: 0 <= k < |done| ==> AllOfLength(done[k], seqLen)
    ensures FilledShards(AllShards(variable, done), variable, limit, seqLen)
  {
    forall k | 0 <= k < |done| - 1
      ensures ShardBytes(variable, done[k]) + FirstBytes(ShardOf(variable, done[k + 1]), variable, seqLen) > limit
    {
      assert NoRoom(variable, limit, done[k], done[k + 1]);
      FirstCounted(variable, done[k], done[k + 1], seqLen);
    }
  }

  lemma {:induction false} FirstCounted(variable: bool, ss: seq<seq<int>>, next: seq<seq<int>>, seqLen: nat)
    requires next != [] && (variable || AllOfLength(next, seqLen))
    ensures ShardBytes(variable, ss + [next[0]])
            == ShardBytes(variable, ss) + FirstBytes(ShardOf(variable, next), variable, seqLen)
  {
    FlattenSnoc(ss, next[0]);
    OffsetsArePrefixSums(next, 1);
    FlattenSnoc([], next[0]);
    assert next[..1] == [] + [next[0]];
  }

  lemma {:induction false} RunRoundTrip(variable: bool, limit: nat, seqLen: nat, rs: seq<seq<int>>)
    requires AllAcceptable(variable, limit, rs) && (variable || (seqLen > 0 && AllOfLength(rs, seqLen)))
    ensures Corpus(AllShards(variable, Run(variable, limit, EMPTY, rs).Shards()), variable, limit, seqLen, rs)
  {
    var st := Run(variable, limit, EMPTY, rs);
    RunFills(variable, limit, rs);
    ShardsAreAll(st);
    if !variable {
      forall k | 0 <= k < |st.Shards()|
        ensures AllOfLength(st.Shards()[k], seqLen)
      {
        PartsOfLength(st.Shards(), rs, seqLen, k);
      }
    }
    ShardsRead(variable, limit, seqLen, st.Shards());
    ShardsFilled(variable, limit, seqLen, st.Shards());
    SumsAddUp(variable, st.Shards());
    forall k | 0 <= k < |st.Shards()|
      ensures AllShards(variable, st.Shards())[k].nbytes <= limit && AllShards(variable, st.Shards())[k].sequences > 0
    {
      assert GoodShard(variable, limit, st.Shards()[k]);
    }
  }

  // ---------- packed text ----------

  /** `row` is the window of width `n` at stride `n - 1` with number `k`. */
  ghost predicate IsRow(row: seq<int>, stream: seq<int>, n: nat, k: nat)
    requires n > 1
  {
    var lo := P.RowStart(n - 1, k);
    lo + n <= |stream| && row == stream[lo..lo + n]
  }

  /** Rows of width `n` at stride `n - 1`. */
  function PackedRows(stream: seq<int>, n: nat, count: nat): (rows: seq<seq<int>>)
    requires n > 1 && P.RowStart(n - 1, count) + 1 <= |stream|
    ensures |rows| == count
  {
    if count == 0 then []
    else
      var lo := P.RowStart(n - 1, count - 1);
      PackedRows(stream, n, count - 1) + [stream[lo..lo + n]]
  }

  lemma {:induction false} PackedRowIs(stream: seq<int>, n: nat, count: nat, k: nat)
    requires n > 1 && P.RowStart(n - 1, count) + 1 <= |stream| && k < count
    ensures IsRow(PackedRows(stream, n, count)[k], stream, n, k)
  {
    if k < count - 1 {
      PackedRowIs(stream, n, count - 1, k);
    }
  }

  /** `body_limit`: the body that `--max-length` leaves room for. */
  function BodyLimit(ids: nat, maxLength: nat): nat
    requires maxLength == 0 || maxLength >= 2
  {
    if maxLength != 0 && ids > maxLength - 2 then maxLength - 2 else ids
  }

  /** Number of rows. */
  function FullChunks(body: nat, n: nat): nat
    requires n > 1
  {
    (body + 1) / (n - 1)
  }

  /** There is a row exactly when the width fits the body and its two ends. */
  lemma {:induction false} SomeChunk(body: nat, n: nat)
    requires n > 2
    ensures FullChunks(body, n) > 0 <==> n <= body + 2
  {
    DivMod(body + 1, n - 1);
    if FullChunks(body, n) > 0 {
      MulLe(1, FullChunks(body, n), n - 1);
    }
  }

  /** Body tokens that make it into rows. */
  lemma {:induction false} EmittedBody(body: nat, n: nat)
    requires n > 2 && FullChunks(body, n) > 0
    ensures var e := P.RowStart(n - 1, FullChunks(body, n)) - 1; 0 < e <= body < e + (n - 1)
  {
    var q := FullChunks(body, n);
    DivMod(body + 1, n - 1);
    P.RowStartIs(n - 1, q);
    MulLe(1, q, n - 1);
  }

  /** The stream the rows cut: the start id, the emitted body, the end id. */
  function Stream(ids: seq<int>, e: nat, startId: int, endId: int): seq<int>
    requires e <= |ids|
  {
    [startId] + ids[..e] + [endId]
  }

  lemma {:induction false} ChunkIsRow(ids: seq<int>, e: nat, startId: int, endId: int, n: nat, lo: nat)
    requires 0 < e <= |ids| && n > 2 && lo + n <= e + 2
    ensures var hi := lo + n; var bodyStart := if lo < 1 then 0 else lo - 1; var bodyEnd := if hi <= e + 1 then hi - 1
        else e;
            && bodyStart <= bodyEnd <= |ids|
            && (if lo == 0 then [startId] else []) + ids[bodyStart..bodyEnd] + (if hi == e + 2 then [endId] else []) ==
               Stream(ids, e, startId, endId)[lo..lo + n]
  {
    var stream := Stream(ids, e, startId, endId);
    var hi := lo + n;
    var bodyStart := if lo < 1 then 0 else lo - 1;
    var bodyEnd := if hi <= e + 1 then hi - 1 else e;
    var row := (if lo == 0 then [startId] else []) + ids[bodyStart..bodyEnd] + (if hi == e + 2 then [endId] else []);
    assert |row| == n;
    var a, m := if lo == 0 then 1 else 0, bodyEnd - bodyStart;
    forall i | 0 <= i < n
      ensures row[i] == stream[lo + i]
    {
      if a <= i < a + m {
        assert row[i] == ids[bodyStart..bodyEnd][i - a] == ids[lo + i - 1];
        assert stream[lo + i] == ids[..e][lo + i - 1];
      }
    }
    assert row == stream[lo..lo + n];
  }

  /** `gd_tok_run_packed_text` behind the tokenizer; false stands for an error status. */
  method RunPackedText(ids: seq<int>, startId: int, endId: int, n: nat, maxLength: nat)
    returns (shards: seq<TokShard>, ok: bool)
    ensures ok <==> 3 <= n <= 0x7FFF_FFFF && (maxLength != 0 ==> 2 <= maxLength <= 0x7FFF_FFFF)
                    && (n <= (if maxLength == 0 then |ids| else Min(|ids|, maxLength - 2)) + 2
                        ==> 4 * n <= SHARD_MAX_BYTES)
    ensures ok ==> Corpus(shards, false, SHARD_MAX_BYTES, n, TextRows(ids, startId, endId, n, maxLength))
  {
    shards := [];
    if n < 3 || n > 0x7FFF_FFFF || (maxLength != 0 && (maxLength < 2 || maxLength > 0x7FFF_FFFF)) {
      return [], false;
    }
    var body := BodyLimit(|ids|, maxLength);
    var full := FullChunks(body, n);
    SomeChunk(body, n);
    var writer := new Writer(false, SHARD_MAX_BYTES);
    ghost var rows := TextRows(ids, startId, endId, n, maxLength);
    if full > 0 {
      ok := WriteChunks(writer, ids, startId, endId, n, maxLength);
      if !ok {
        return [], false;
      }
    }
    writer.FinishShard();
    RowsAcceptable(ids, startId, endId, n, maxLength);
    RunRoundTrip(false, SHARD_MAX_BYTES, n, rows);
    shards := writer.shards;
    ok := true;
  }

  /** The rows of a packed text run. */
  function TextRows(ids: seq<int>, startId: int, endId: int, n: nat, maxLength: nat): (rows: seq<seq<int>>)
    requires n > 2 && (maxLength == 0 || maxLength >= 2)
    ensures |rows| == FullChunks(BodyLimit(|ids|, maxLength), n)
  {
    var full := FullChunks(BodyLimit(|ids|, maxLength), n);
    if full == 0 then []
    else
      EmittedBody(BodyLimit(|ids|, maxLength), n);
      PackedRows(Stream(ids, P.RowStart(n - 1, full) - 1, startId, endId), n, full)
  }

  lemma {:induction false} RowsAcceptable(ids: seq<int>, startId: int, endId: int, n: nat, maxLength: nat)
    requires n > 2 && (maxLength == 0 || maxLength >= 2)
    ensures AllOfLength(TextRows(ids, startId, endId, n, maxLength), n)
    ensures 4 * n <= SHARD_MAX_BYTES
        ==> AllAcceptable(false, SHARD_MAX_BYTES, TextRows(ids, startId, endId, n, maxLength))
  {
    var rows := TextRows(ids, startId, endId, n, maxLength);
    forall k | 0 <= k < |rows|
      ensures |rows[k]| == n
    {
      EmittedBody(BodyLimit(|ids|, maxLength), n);
      PackedRowIs(Stream(ids, P.RowStart(n - 1, |rows|) - 1, startId, endId), n, |rows|, k);
    }
  }

  /** The chunk loop. */
  method WriteChunks(writer: Writer, ids: seq<int>, startId: int, endId: int, n: nat, maxLength: nat) returns (ok: bool)
    requires writer.Valid() && writer.model == State([], []) && !writer.isOpen
    requires !writer.variableLength && writer.maxShardBytes == SHARD_MAX_BYTES
    requires 3 <= n && (maxLength == 0 || maxLength >= 2) && FullChunks(BodyLimit(|ids|, maxLength), n) > 0
    modifies writer
    ensures writer.Valid() && (writer.isOpen ==> writer.model.current != [])
    ensures ok <==> 4 * n <= SHARD_MAX_BYTES
    ensures ok ==> writer.model == Run(false, SHARD_MAX_BYTES, EMPTY, TextRows(ids, startId, endId, n, maxLength))
  {
    var body := BodyLimit(|ids|, maxLength);
    var full := FullChunks(body, n);
    EmittedBody(body, n);
    P.RowStartIs(n - 1, full);
    var emitted := full * (n - 1) - 1;
    ghost var rows := TextRows(ids, startId, endId, n, maxLength);
    ok := WriteAll(writer, ids, startId, endId, n, emitted, full, rows);
  }

  method WriteAll(writer: Writer, ids: seq<int>, startId: int, endId: int, n: nat, emitted: nat, full: nat,
        ghost rows: seq<seq<int>>)
    returns (ok: bool)
    requires writer.Valid() && writer.model == State([], []) && !writer.isOpen
    requires !writer.variableLength && writer.maxShardBytes == SHARD_MAX_BYTES
    requires 3 <= n && full > 0 && 0 < emitted <= |ids| && P.RowStart(n - 1, full) == emitted + 1
    requires rows == PackedRows(Stream(ids, emitted, startId, endId), n, full)
    modifies writer
    ensures writer.Valid() && (writer.isOpen ==> writer.model.current != [])
    ensures ok <==> 4 * n <= SHARD_MAX_BYTES
    ensures ok ==> writer.model == Run(false, SHARD_MAX_BYTES, EMPTY, rows)
  {
    var lo := 0;
    for chunk := 0 to full
      invariant writer.Valid() && (writer.isOpen ==> writer.model.current != [])
      invariant lo == P.RowStart(n - 1, chunk)
      invariant writer.model == Run(false, SHARD_MAX_BYTES, EMPTY, rows[..chunk])
      invariant chunk > 0 ==> 4 * n <= SHARD_MAX_BYTES
    {
      NextRow(Stream(ids, emitted, startId, endId), n, full, chunk, lo);
      ok := WriteChunk(writer, ids, startId, endId, n, emitted, lo);
      if !ok {
        return false;
      }
      lo := lo + (n - 1);
    }
    assert rows[..full] == rows;
    ok := true;
  }

  lemma {:induction false} NextRow(stream: seq<int>, n: nat, full: nat, k: nat, lo: nat)
    requires n > 1 && P.RowStart(n - 1, full) + 1 <= |stream| && k < full && lo == P.RowStart(n - 1, k)
    ensures lo + n <= P.RowStart(n - 1, full) + 1 && P.RowStart(n - 1, k + 1) == lo + (n - 1)
    ensures var rows := PackedRows(stream, n, full);
            Run(false, SHARD_MAX_BYTES, EMPTY, rows[..k + 1]) ==
            Step(false, SHARD_MAX_BYTES, Run(false, SHARD_MAX_BYTES, EMPTY, rows[..k]), stream[lo..lo + n]).0
  {
    RowInside(n, k, full);
    PackedRowIs(stream, n, full, k);
    OneMoreRow(PackedRows(stream, n, full), k);
  }

  lemma {:induction false} OneMoreRow(rows: seq<seq<int>>, k: nat)
    requires k < |rows|
    ensures Run(false, SHARD_MAX_BYTES, EMPTY, rows[..k + 1])
        == Step(false, SHARD_MAX_BYTES, Run(false, SHARD_MAX_BYTES, EMPTY, rows[..k]), rows[k]).0
  {
    RunSnoc(false, SHARD_MAX_BYTES, EMPTY, rows[..k], rows[k]);
    assert rows[..k + 1] == rows[..k] + [rows[k]];
  }

  /** One chunk, written as prefix, body and suffix. */
  method WriteChunk(writer: Writer, ids: seq<int>, startId: int, endId: int, n: nat, emitted: nat, lo: nat)
    returns (ok: bool)
    requires writer.Valid() && (writer.isOpen ==> writer.model.current != [])
    requires !writer.variableLength && writer.maxShardBytes == SHARD_MAX_BYTES
    requires 3 <= n && 0 < emitted <= |ids| && lo + n <= emitted + 2
    modifies writer
    ensures writer.Valid() && (writer.isOpen ==> writer.model.current != [])
    ensures ok <==> 4 * n <= SHARD_MAX_BYTES
    ensures ok ==>
        writer.model
        == Step(false, SHARD_MAX_BYTES, old(writer.model), Stream(ids, emitted, startId, endId)[lo..lo + n]).0
  {
    ChunkIsRow(ids, emitted, startId, endId, n, lo);
    var hi := lo + n;
    var bodyStart := if lo < 1 then 0 else lo - 1;
    var bodyEnd := if hi <= emitted + 1 then hi - 1 else emitted;
    var prefix, suffix := if lo == 0 then [startId] else [], if hi == emitted + 2 then [endId] else [];
    ok := WriteParts(writer, prefix, ids[bodyStart..bodyEnd], suffix,
      Stream(ids, emitted, startId, endId)[lo..lo + n], n);
  }

  method WriteParts(writer: Writer, prefix: seq<int>, body: seq<int>, suffix: seq<int>, ghost row: seq<int>,
        ghost n: nat)
    returns (ok: bool)
    requires writer.Valid() && (writer.isOpen ==> writer.model.current != [])
    requires !writer.variableLength && writer.maxShardBytes == SHARD_MAX_BYTES
    requires row == prefix + body + suffix && |row| == n > 0
    modifies writer
    ensures writer.Valid() && (writer.isOpen ==> writer.model.current != [])
    ensures ok <==> 4 * n <= SHARD_MAX_BYTES
    ensures writer.model == Step(false, SHARD_MAX_BYTES, old(writer.model), row).0
  {
    ok := writer.WriteSequence(prefix, body, suffix);
  }

  lemma {:induction false} RowInside(n: nat, k: nat, count: nat)
    requires n > 1 && k < count
    ensures P.RowStart(n - 1, k) + n <= P.RowStart(n - 1, count) + 1
    decreases count - k
  {
    if k + 1 < count {
      RowInside(n, k + 1, count);
    }
  }

  // ---------- what the rows are ----------

  /** Adjacent rows share exactly one token, the last of one and the first of the next. */
  lemma {:induction false} RowsOverlap(stream: seq<int>, n: nat, count: nat, k: nat)
    requires n > 1 && P.RowStart(n - 1, count) + 1 <= |stream| && k + 1 < count
    ensures var rows := PackedRows(stream, n, count);
            |rows[k]| == |rows[k + 1]| == n && rows[k][n - 1] == rows[k + 1][0]
  {
    PackedRowIs(stream, n, count, k);
    PackedRowIs(stream, n, count, k + 1);
  }

  /** The first row, then every later row without its first token. */
  function Restore(rows: seq<seq<int>>): seq<int>
  {
    if rows == [] then []
    else if |rows| == 1 then rows[0]
    else if rows[|rows| - 1] == [] then Restore(rows[..|rows| - 1])
    else Restore(rows[..|rows| - 1]) + rows[|rows| - 1][1..]
  }

  /** The rows tile the stream up to the last token of the last row. */
  lemma {:induction false} RowsRestore(stream: seq<int>, n: nat, count: nat)
    requires n > 1 && count > 0 && P.RowStart(n - 1, count) + 1 <= |stream|
    ensures Restore(PackedRows(stream, n, count)) == stream[..P.RowStart(n - 1, count) + 1]
  {
    var rows, lo := PackedRows(stream, n, count), P.RowStart(n - 1, count - 1);
    if count > 1 {
      RowsRestore(stream, n, count - 1);
      assert rows[..count - 1] == PackedRows(stream, n, count - 1);
      JoinWindow(stream, lo, n);
    } else {
      assert rows == [stream[0..n]];
    }
  }

  lemma {:induction false} JoinWindow(stream: seq<int>, lo: nat, n: nat)
    requires n > 0 && lo + n <= |stream|
    ensures stream[..lo + 1] + stream[lo..lo + n][1..] == stream[..lo + n]
  {
    assert stream[lo..lo + n][1..] == stream[lo + 1..lo + n];
  }

  /** The rows of a packed text run restore the start id, a prefix of the body and the end id; fewer than
      `n - 1` tokens of the length-limited body are dropped, and the length limit is respected. */
  lemma {:induction false} TextRowsExact(ids: seq<int>, startId: int, endId: int, n: nat, maxLength: nat)
    requires n > 2 && (maxLength == 0 || maxLength >= 2)
    ensures var rows := TextRows(ids, startId, endId, n, maxLength);
            var body := if maxLength == 0 then |ids| else Min(|ids|, maxLength - 2);
            if rows == [] then body + 1 < n - 1
            else
              exists e :: && 0 < e <= body < e + (n - 1)
                          && Restore(rows) == [startId] + ids[..e] + [endId]
                          && (maxLength != 0 ==> |Restore(rows)| <= maxLength)
  {
    var body := BodyLimit(|ids|, maxLength);
    var full := FullChunks(body, n);
    if full == 0 {
      DivMod(body + 1, n - 1);
    } else {
      var e := RowsOfStream(ids, startId, endId, n, maxLength);
    }
  }

  lemma {:induction false} RowsOfStream(ids: seq<int>, startId: int, endId: int, n: nat, maxLength: nat)
    returns (e: nat)
    requires n > 2 && (maxLength == 0 || maxLength >= 2) && FullChunks(BodyLimit(|ids|, maxLength), n) > 0
    ensures 0 < e <= BodyLimit(|ids|, maxLength) < e + (n - 1)
    ensures Restore(TextRows(ids, startId, endId, n, maxLength)) == [startId] + ids[..e] + [endId]
  {
    var full := FullChunks(BodyLimit(|ids|, maxLength), n);
    EmittedBody(BodyLimit(|ids|, maxLength), n);
    e := P.RowStart(n - 1, full) - 1;
    var stream := Stream(ids, e, startId, endId);
    RowsRestore(stream, n, full);
    assert stream[..|stream|] == stream;
  }
}
