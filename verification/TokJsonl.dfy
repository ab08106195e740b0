/** JSONL tokenization (`gd_tok_run_jsonl`): one row per line, ready for the packers. */
module TokJsonl {
  import opened Seqs
  import opened Bytes
  import opened JsonString
  import opened JsonValue
  import opened JsonScanner
  import opened TokCorpus
  import opened TokWriter
  import opened TokSplit
  import opened TokRuns
  import P = Packing
  import ShardFit

  /** `row` is the start id, as much of the text as the length limit leaves room for, and the end id. */
  ghost predicate Wraps(row: seq<int>, ids: seq<int>, maxLength: nat, startId: int, endId: int)
    requires maxLength >= 2
  {
    var kept := Min(|ids|, maxLength - 2);
    && |row| == kept + 2 && row[0] == startId && row[kept + 1] == endId
    && forall k :: 0 <= k < kept ==> row[k + 1] == ids[k]
  }

  /** Every row respects the length limit; with a limit below 2^28 it is small enough for a shard. */
  lemma {:induction false} RowLengths(row: seq<int>, ids: seq<int>, maxLength: nat, startId: int, endId: int)
    requires maxLength >= 2 && Wraps(row, ids, maxLength, startId, endId)
    ensures 2 <= |row| <= maxLength
    ensures Acceptable(true, SHARD_MAX_BYTES, row) <==> 4 * (Min(|ids|, maxLength - 2) + 2) + 16 <= SHARD_MAX_BYTES
    ensures maxLength < 0x1000_0000 ==> Acceptable(true, SHARD_MAX_BYTES, row)
  {
  }

  /** The lines of the input as C strings, short enough for the scanner. */
  ghost predicate Lines(lines: seq<NulFreeData>) {
    forall i :: 0 <= i < |lines| ==> |lines[i]| < TEXT_LIMIT
  }

  /** Rows of the first `n` lines: each wraps the tokens of the text in its line. */
  ghost predicate RowsOf(lines: seq<NulFreeData>, n: nat, field: Data, maxLength: nat, encode: Data -> seq<int>,
        startId: int, endId: int, rows: seq<seq<int>>)
    requires maxLength >= 2 && n <= |lines|
  {
    |rows| == n
    && forall i :: 0 <= i < n ==> WrapsLine(rows[i], lines[i], field, maxLength, encode, startId, endId)
  }

  ghost predicate WrapsLine(row: seq<int>, line: Data, field: Data, maxLength: nat, encode: Data -> seq<int>,
        startId: int, endId: int)
    requires maxLength >= 2
  {
    var text := Extract(line, field);
    text.Found? && Wraps(row, encode(text.value), maxLength, startId, endId)
  }

  /** A line with the field, whose row is small enough for a shard of its own. */
  predicate LineAccepted(line: Data, field: Data, maxLength: nat, encode: Data -> seq<int>)
  {
    var text := Extract(line, field);
    text.Found? && 4 * (Min(|encode(text.value)|, maxLength - 2) + 2) + 16 <= SHARD_MAX_BYTES
  }

  /** `gd_tok_run_jsonl` behind the tokenizer, which is a parameter; false stands for an error status. */
  method RunJsonl(lines: seq<NulFreeData>, field: NulFreeData, maxLength: nat, encode: Data -> seq<int>, startId: int,
        endId: int)
    returns (shards: seq<TokShard>, ok: bool, ghost rows: seq<seq<int>>)
    requires Lines(lines)
    ensures ok ==>
        2 <= maxLength <= 0x7FFF_FFFF
        && RowsOf(lines, |lines|, field, maxLength, encode, startId, endId, rows)
    ensures ok ==> Corpus(shards, true, SHARD_MAX_BYTES, 0, rows)
    ensures ok <==>
        2 <= maxLength <= 0x7FFF_FFFF
        && forall i :: 0 <= i < |lines| ==> LineAccepted(lines[i], field, maxLength, encode)
  {
    shards, rows := [], [];
    if maxLength < 2 || maxLength > 0x7FFF_FFFF {
      return [], false, [];
    }
    var writer := new Writer(true, SHARD_MAX_BYTES);
    for i := 0 to |lines|
      invariant writer.Valid() && (writer.isOpen ==> writer.model.current != [])
      invariant fresh(writer) && writer.variableLength && writer.maxShardBytes == SHARD_MAX_BYTES
      invariant RowsOf(lines, i, field, maxLength, encode, startId, endId, rows)
          && AllAcceptable(true, SHARD_MAX_BYTES, rows)
      invariant forall k :: 0 <= k < i ==> LineAccepted(lines[k], field, maxLength, encode)
      invariant writer.model == Run(true, SHARD_MAX_BYTES, EMPTY, rows)
    {
      ghost var row;
      ok, row := WriteLine(writer, lines[i], field, maxLength, encode, startId, endId);
      if !ok {
        return [], false, [];
      }
      NextLine(lines, i, field, maxLength, encode, startId, endId, rows, row);
      rows := rows + [row];
    }
    writer.FinishShard();
    RunRoundTrip(true, SHARD_MAX_BYTES, 0, rows);
    shards := writer.shards;
    ok := true;
  }

  lemma {:induction false} NextLine(lines: seq<NulFreeData>, i: nat, field: Data, maxLength: nat,
        encode: Data -> seq<int>, startId: int, endId: int, rows: seq<seq<int>>, row: seq<int>)
    requires maxLength >= 2 && i < |lines| && RowsOf(lines, i, field, maxLength, encode, startId, endId, rows)
    requires WrapsLine(row, lines[i], field, maxLength, encode, startId, endId)
    requires AllAcceptable(true, SHARD_MAX_BYTES, rows) && Acceptable(true, SHARD_MAX_BYTES, row)
    ensures RowsOf(lines, i + 1, field, maxLength, encode, startId, endId, rows + [row])
    ensures AllAcceptable(true, SHARD_MAX_BYTES, rows + [row])
    ensures Run(true, SHARD_MAX_BYTES, EMPTY, rows + [row])
        == Step(true, SHARD_MAX_BYTES, Run(true, SHARD_MAX_BYTES, EMPTY, rows), row).0
  {
    RunSnoc(true, SHARD_MAX_BYTES, EMPTY, rows, row);
  }

  /** One line: extract, encode, cut, write. */
  method WriteLine(writer: Writer, line: NulFreeData, field: NulFreeData, maxLength: nat, encode: Data -> seq<int>,
        startId: int, endId: int)
    returns (ok: bool, ghost row: seq<int>)
    requires writer.Valid() && (writer.isOpen ==> writer.model.current != []) && |line| < TEXT_LIMIT && maxLength >= 2
    requires writer.variableLength && writer.maxShardBytes == SHARD_MAX_BYTES
    modifies writer
    ensures writer.Valid() && (writer.isOpen ==> writer.model.current != [])
    ensures ok <==> LineAccepted(line, field, maxLength, encode)
    ensures ok ==>
        && WrapsLine(row, line, field, maxLength, encode, startId, endId) && Acceptable(true, SHARD_MAX_BYTES, row)
        && writer.model == Step(true, SHARD_MAX_BYTES, old(writer.model), row).0
  {
    var text := ExtractString(line, field);
    if !text.Found? {
      return false, [];
    }
    var ids := encode(text.value);
    var body := ids[..Min(|ids|, maxLength - 2)];
    row := [startId] + body + [endId];
    BodyWraps(ids, maxLength, startId, endId);
    ok := writer.WriteSequence([startId], body, [endId]);
  }

  lemma {:induction false} BodyWraps(ids: seq<int>, maxLength: nat, startId: int, endId: int)
    requires maxLength >= 2
    ensures Wraps([startId] + ids[..Min(|ids|, maxLength - 2)] + [endId], ids, maxLength, startId, endId)
  {
    var kept := Min(|ids|, maxLength - 2);
    var row := [startId] + ids[..kept] + [endId];
    forall k | 0 <= k < kept
      ensures row[k + 1] == ids[k]
    {
      assert row[k + 1] == ids[..kept][k];
    }
  }

  // ---------- on to the packers ----------

  function PackerShard(s: TokShard): P.Shard { P.Shard(s.tokens, s.offsets) }

  function PackerShards(shards: seq<TokShard>): (r: seq<P.Shard>)
    ensures |r| == |shards| && forall k :: 0 <= k < |r| ==> r[k] == PackerShard(shards[k])
  {
    seq(|shards|, k requires 0 <= k < |shards| => PackerShard(shards[k]))
  }

  lemma {:induction false} PackerShardsOf(done: seq<seq<seq<int>>>)
    ensures P.ValidShards(PackerShards(AllShards(true, done)))
    ensures P.AllDocuments(PackerShards(AllShards(true, done))) == Flatten(done)
  {
    var shards := PackerShards(AllShards(true, done));
    forall k | 0 <= k < |done|
      ensures shards[k].Valid()
    {
      SequencesAreDocuments(done[k]);
    }
    if done != [] {
      var n := |done| - 1;
      PackerShardsOf(done[..n]);
      SequencesAreDocuments(done[n]);
      assert shards[..n] == PackerShards(AllShards(true, done[..n]));
    }
  }

  /** The shards of a JSONL run are valid input for the packers: their documents are exactly the rows, and
      none of them is a single token, so planned shards always fit. */
  lemma {:induction false} RowsArePackable(rows: seq<seq<int>>)
    requires AllAcceptable(true, SHARD_MAX_BYTES, rows) && forall i :: 0 <= i < |rows| ==> |rows[i]| >= 2
    ensures var shards := PackerShards(AllShards(true, Run(true, SHARD_MAX_BYTES, EMPTY, rows).Shards()));
            P.ValidShards(shards) && P.AllDocuments(shards) == rows && ShardFit.NoSingles(P.AllDocuments(shards))
  {
    RunFills(true, SHARD_MAX_BYTES, rows);
    ShardsAreAll(Run(true, SHARD_MAX_BYTES, EMPTY, rows));
    PackerShardsOf(Run(true, SHARD_MAX_BYTES, EMPTY, rows).Shards());
  }
}
