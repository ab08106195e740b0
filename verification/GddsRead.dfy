/** Reading finished shards back (`read_shard_header`, `read_index`, `iter_split_samples`). */
module GddsRead {
  import opened Seqs
  import opened Bytes
  import opened GddsSchema
  import opened GddsDecode
  import opened GddsShard

  datatype Shard = Shard(fields: seq<ReadField>, nSamples: nat, indexOffset: nat, dataOffset: nat,
                         dataNbytes: nat, schemaHash: nat)

  type Row = map<Data, ReadTensor>

  /** The part of the header that the reader unpacks. */
  const HEADER_READ: nat := 72

  /** `read_shard_header`; `None` stands for any of its exceptions. */
  function ReadHeader(file: Data): Option<Shard> {
    if |file| < HEADER_READ || file[..8] != MAGIC || U(file, 8, 4) != 1 || U(file, 12, 4) != HEADER_SIZE then None
    else
      match ReadFields(file, U(file, 32, 8), U(file, 16, 4))
      case None => None
      case Some(fields) =>
        Some(Shard(fields, U(file, 24, 8), U(file, 40, 8), U(file, 48, 8), U(file, 56, 8), U(file, 64, 8)))
  }

  /** `read_index`. */
  function ReadIndex(file: Data, shard: Shard, i: nat): Option<(nat, nat)> {
    var base := shard.indexOffset + IndexBase(i);
    if base + INDEX_ENTRY_SIZE > |file| then None else Some((U(file, base, 8), U(file, base + 8, 8)))
  }

  /** The bytes of one record, found through its index entry; a short read raises. */
  function ReadRecord(file: Data, shard: Shard, i: nat): Option<Data> {
    match ReadIndex(file, shard, i)
    case None => None
    case Some((off, n)) => if off + n > |file| then None else Some(file[off..off + n])
  }

  /** One sample: index entry, record bytes, decoding. */
  function ReadSample(file: Data, shard: Shard, i: nat): Option<Row> {
    match ReadRecord(file, shard, i)
    case None => None
    case Some(raw) => Decode(shard.fields, raw)
  }

  /** A whole shard, when all of it can be read. */
  function ReadShard(file: Data): Option<seq<Row>> {
    match ReadHeader(file)
    case None => None
    case Some(shard) => ReadSamples(file, shard)
  }

  function SampleResults(file: Data, shard: Shard): (r: seq<Option<Row>>)
    ensures |r| == shard.nSamples && forall i :: 0 <= i < |r| ==> r[i] == ReadSample(file, shard, i)
  {
    seq(shard.nSamples, i requires 0 <= i => ReadSample(file, shard, i))
  }

  function ReadSamples(file: Data, shard: Shard): Option<seq<Row>> {
    Collect(SampleResults(file, shard))
  }

  function ShardResults(files: seq<Data>): (r: seq<Option<seq<Row>>>)
    ensures |r| == |files| && forall i :: 0 <= i < |r| ==> r[i] == ReadShard(files[i])
  {
    seq(|files|, i requires 0 <= i < |files| => ReadShard(files[i]))
  }

  /** All shards of a split, in manifest order. */
  function ReadSplit(files: seq<Data>): Option<seq<seq<Row>>> {
    Collect(ShardResults(files))
  }

  // ---------- reading until something fails ----------

  /** How far the reader gets: the rows before the first failure, and what that failure is. */
  datatype Trail = Trail(rows: seq<Row>, end: Ending)

  datatype Ending = Finished | BadHeader | BadSample

  /** The readable samples up to the first one that is not. */
  function GoodRows(file: Data, shard: Shard): seq<Row> {
    Leading(SampleResults(file, shard))
  }

  function ShardTrail(file: Data): Trail {
    match ReadHeader(file)
    case None => Trail([], BadHeader)
    case Some(shard) =>
      var rows := GoodRows(file, shard);
      Trail(rows, if |rows| == shard.nSamples then Finished else BadSample)
  }

  /** Rows that come first. */
  function Behind(rows: seq<Row>, t: Trail): Trail { Trail(rows + t.rows, t.end) }

  /** A trail and the one behind it, which is only reached when nothing fails. */
  function Joined(t: Trail, rest: Trail): Trail {
    if t.end == Finished then Behind(t.rows, rest) else t
  }

  function SplitTrail(files: seq<Data>): Trail {
    if files == [] then Trail([], Finished) else Joined(ShardTrail(files[0]), SplitTrail(files[1..]))
  }

  /** Whether the failure is met under a limit: the limit is checked before every sample, but not before
      the header of the next shard. */
  predicate Raises(t: Trail, limit: Option<nat>) {
    match t.end
    case Finished => false
    case BadHeader => limit.Some? ==> |t.rows| <= limit.value
    case BadSample => limit.Some? ==> |t.rows| < limit.value
  }

  // ---------- trails of readable splits ----------

  lemma {:induction false} ShardTrailReads(file: Data)
    ensures ReadShard(file) == if ShardTrail(file).end == Finished then Some(ShardTrail(file).rows) else None
  {
    var header := ReadHeader(file);
    if header.Some? {
      var rows := GoodRows(file, header.value);
      if |rows| == header.value.nSamples {
        CollectIs(SampleResults(file, header.value), rows);
      }
    }
  }

  lemma {:induction false} CollectStep<T>(results: seq<Option<T>>)
    requires results != []
    ensures Collect(results).Some? <==> results[0].Some? && Collect(results[1..]).Some?
    ensures Collect(results).Some? ==> Collect(results).value == [results[0].value] + Collect(results[1..]).value
  {
    assert forall i :: 0 < i < |results| ==> results[1..][i - 1] == results[i];
    assert results == [results[0]] + results[1..];
  }

  lemma {:induction false} ReadSplitStep(files: seq<Data>)
    requires files != []
    ensures ReadSplit(files).Some? <==> ReadShard(files[0]).Some? && ReadSplit(files[1..]).Some?
    ensures ReadSplit(files).Some? ==>
              ReadSplit(files).value == [ReadShard(files[0]).value] + ReadSplit(files[1..]).value
  {
    CollectStep(ShardResults(files));
    assert ShardResults(files)[1..] == ShardResults(files[1..]);
  }

  /** A split is readable exactly when its trail finishes, and its rows are then the whole trail. */
  lemma {:induction false} TrailReads(files: seq<Data>)
    ensures ReadSplit(files).Some? <==> SplitTrail(files).end == Finished
    ensures ReadSplit(files).Some? ==> Flatten(ReadSplit(files).value) == SplitTrail(files).rows
  {
    if files == [] {
      assert ReadSplit(files) == Some([]);
    } else {
      ReadSplitStep(files);
      ShardTrailReads(files[0]);
      TrailReads(files[1..]);
      if ReadSplit(files).Some? {
        var rows := ReadShard(files[0]).value;
        FlattenAppend([rows], ReadSplit(files[1..]).value);
        FlattenSnoc([], rows);
        assert [] + [rows] == [rows] && [] + rows == rows;
      }
    }
  }

  // ---------- the iterator ----------

  /** The inner loop of `iter_split_samples`: the samples of one shard until one fails or the limit is
      reached in front of one. */
  method IterShard(file: Data, shard: Shard, yielded: nat, limit: Option<nat>)
    returns (out: seq<Row>, stopped: bool, raised: bool)
    requires limit.Some? ==> yielded <= limit.value
    ensures out <= GoodRows(file, shard) && (limit.Some? ==> yielded + |out| <= limit.value)
    ensures raised ==> !stopped && |out| < shard.nSamples && out == GoodRows(file, shard)
    ensures raised && limit.Some? ==> yielded + |out| < limit.value
    ensures stopped ==> limit == Some(yielded + |out|) && |out| < shard.nSamples
    ensures !raised && !stopped ==> |out| == shard.nSamples
  {
    out, stopped, raised := [], false, false;
    ghost var good := GoodRows(file, shard);
    for i := 0 to shard.nSamples
      invariant |out| == i && out <= good && (limit.Some? ==> yielded + i <= limit.value)
    {
      if limit.Some? && yielded + i >= limit.value {
        return out, true, false;
      }
      var row := ReadSample(file, shard, i);
      GoodNext(file, shard, i);
      if row.None? {
        return out, false, true;
      }
      out := out + [row.value];
    }
  }

  lemma {:induction false} GoodNext(file: Data, shard: Shard, i: nat)
    requires i < shard.nSamples && i <= |GoodRows(file, shard)|
    ensures var good := GoodRows(file, shard);
            if ReadSample(file, shard, i).None? then |good| == i
            else i < |good| && good[i] == ReadSample(file, shard, i).value
  {
    var results := SampleResults(file, shard);
    assert i < |Leading(results)| ==> results[i] == Some(Leading(results)[i]);
  }

  /** What has been yielded when the first `k` shards are done. */
  ghost predicate IterTo(files: seq<Data>, k: nat, out: seq<Row>, limit: Option<nat>)
    requires k <= |files|
  {
    && SplitTrail(files) == Behind(out, SplitTrail(files[k..]))
    && (limit.Some? ==> |out| <= limit.value)
  }

  /** What `iter_split_samples` promises at its end. */
  ghost predicate IterDone(files: seq<Data>, out: seq<Row>, raised: bool, limit: Option<nat>) {
    out == Limited(SplitTrail(files).rows, limit) && raised == Raises(SplitTrail(files), limit)
  }

  /** The trail behind `k` shards starts with the next one. */
  lemma {:induction false} TrailStep(files: seq<Data>, k: nat)
    requires k < |files|
    ensures SplitTrail(files[k..]) == Joined(ShardTrail(files[k]), SplitTrail(files[k + 1..]))
  {
    assert files[k..][0] == files[k] && files[k..][1..] == files[k + 1..];
  }

  /** A shard read to its end, with what follows it. */
  lemma {:induction false} ReadThrough(t: Trail, rest: Trail, out: seq<Row>)
    requires t.end == Finished
    ensures Behind(out, Joined(t, rest)) == Behind(out + t.rows, rest)
  {
    Assoc(out, t.rows, rest.rows);
  }

  /** When the limit is reached in front of a sample, no failure is met. */
  lemma {:induction false} StopsInside(t: Trail, rest: Trail, out: seq<Row>, part: seq<Row>, limit: nat)
    requires t.end != BadHeader && part <= t.rows && limit == |out| + |part|
    requires t.end == Finished ==> |part| < |t.rows|
    ensures var all := Behind(out, Joined(t, rest));
            Limited(all.rows, Some(limit)) == out + part && !Raises(all, Some(limit))
  {
    var rows := Joined(t, rest).rows;
    assert part <= rows;
    assert (out + rows)[..limit] == out + part;
  }

  /** One shard of the outer loop. */
  method IterNext(files: seq<Data>, k: nat, out: seq<Row>, limit: Option<nat>)
    returns (more: seq<Row>, done: bool, raised: bool)
    requires k < |files| && IterTo(files, k, out, limit)
    ensures done ==> IterDone(files, more, raised, limit)
    ensures !done ==> IterTo(files, k + 1, more, limit)
  {
    TrailStep(files, k);
    ghost var t, rest := ShardTrail(files[k]), SplitTrail(files[k + 1..]);
    var part;
    part, done, raised := IterFile(files[k], |out|, limit);
    more := out + part;
    AfterFile(t, rest, out, part, limit, done, raised);
  }

  /** One shard: its header, then its samples. */
  method IterFile(file: Data, yielded: nat, limit: Option<nat>) returns (part: seq<Row>, done: bool, raised: bool)
    requires limit.Some? ==> yielded <= limit.value
    ensures FileDone(ShardTrail(file), part, done, raised, yielded, limit)
  {
    var shard := ReadHeader(file);
    if shard.None? {
      return [], true, true;
    }
    var stopped;
    part, stopped, raised := IterShard(file, shard.value, yielded, limit);
    done := stopped || raised;
  }

  ghost predicate FileDone(t: Trail, part: seq<Row>, done: bool, raised: bool, yielded: nat, limit: Option<nat>) {
    && part <= t.rows && (limit.Some? ==> yielded + |part| <= limit.value)
    && (!done ==> !raised && t.end == Finished && part == t.rows)
    && (done && raised ==>
      t.end != Finished && part == t.rows && (t.end == BadSample && limit.Some? ==> yielded + |part| < limit.value))
    && (done && !raised ==>
      t.end != BadHeader && limit == Some(yielded + |part|) && (t.end == Finished ==> |part| < |t.rows|))
  }

  lemma {:induction false} AfterFile(t: Trail, rest: Trail, out: seq<Row>, part: seq<Row>, limit: Option<nat>,
        done: bool, raised: bool)
    requires FileDone(t, part, done, raised, |out|, limit)
    ensures var all := Behind(out, Joined(t, rest));
            if done then out + part == Limited(all.rows, limit) && raised == Raises(all, limit)
            else all == Behind(out + part, rest)
  {
    if !done {
      ReadThrough(t, rest, out);
    } else if !raised {
      StopsInside(t, rest, out, part, limit.value);
    }
  }

  /** `iter_split_samples`: the rows in front of the first failure, cut off at the limit; it raises exactly
      when the failure is met before the limit. A readable split is yielded whole; without a limit an
      unreadable one raises. */
  method IterSplit(files: seq<Data>, limit: Option<nat>) returns (out: seq<Row>, raised: bool)
    ensures out == Limited(SplitTrail(files).rows, limit) && raised == Raises(SplitTrail(files), limit)
    ensures ReadSplit(files).Some? ==> !raised && out == Limited(Flatten(ReadSplit(files).value), limit)
    ensures limit.None? && ReadSplit(files).None? ==> raised
  {
    TrailReads(files);
    out, raised := [], false;
    assert Behind([], SplitTrail(files)) == SplitTrail(files) && files[0..] == files;
    for k := 0 to |files|
      invariant IterTo(files, k, out, limit)
    {
      var done;
      out, done, raised := IterNext(files, k, out, limit);
      if done {
        return;
      }
    }
    assert out + [] == out;
    raised := false;
  }
}
