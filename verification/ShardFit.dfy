/** The exact size of packed rows on disk, and why every planned shard stays within its byte limit. */
module ShardFit {
  import opened Arith
  import opened Seqs
  import opened Bytes
  import opened Segments
  import opened GddsSchema
  import GddsRecord
  import opened GddsShard
  import opened GddsRoundTrip
  import opened Parallel
  import P = Packing

  // ---------- rows as samples ----------

  const TOKENS: Data := [116, 111, 107, 101, 110, 115]
  const SEGMENT_LENGTHS: Data := [115, 101, 103, 109, 101, 110, 116, 95, 108, 101, 110, 103, 116, 104, 115]

  /** `storage_fields_for_context`. */
  function StorageFields(c: nat): seq<Field>
    requires c + 1 < 0x8000_0000_0000_0000
  {
    [Field(TOKENS, U16, [c + 1], Stack, None, 0, NoGenerator, None),
     Field(SEGMENT_LENGTHS, I32, [-1], PackedSequence, Some(0), 0, NoGenerator, None)]
  }

  lemma {:induction false} StorageFieldsOk(c: nat)
    requires 0 < c && c + 1 < 0x8000_0000_0000_0000
    ensures SchemaOk(StorageFields(c))
  {
    var fields := StorageFields(c);
    assert FieldOk(fields[0]) && FieldOk(fields[1]);
    assert |fields[0].name| != |fields[1].name|;
  }

  /** A row of `c + 1` tokens that fits the compact storage: `u16` tokens, `i32` run lengths. */
  predicate Storable(row: P.Sample, c: nat) {
    && |row.tokens| == c + 1 < 0x8000_0000_0000_0000
    && (forall i :: 0 <= i < |row.tokens| ==> 0 <= row.tokens[i] < 0x1_0000)
    && |row.segmentLengths| < 0x8000_0000_0000_0000
    && (forall i :: 0 <= i < |row.segmentLengths| ==> 0 <= row.segmentLengths[i] < 0x8000_0000)
  }

  /** `packed_sample_to_gdds`: each vector as its `tobytes`. */
  function ToGdds(row: P.Sample, c: nat): GddsRecord.Sample
    requires Storable(row, c)
  {
    map[TOKENS := GddsRecord.Tensor(U16, [|row.tokens|], Pack(row.tokens, 2)),
        SEGMENT_LENGTHS := GddsRecord.Tensor(I32, [|row.segmentLengths|], Pack(row.segmentLengths, 4))]
  }

  /** Bytes of one encoded row: header, two entries, tokens, run lengths. */
  function RowBytes(row: P.Sample): nat {
    196 + 2 * |row.tokens| + 4 * |row.segmentLengths|
  }

  lemma {:induction false} RowAccepted(row: P.Sample, c: nat)
    requires Storable(row, c)
    ensures GddsRecord.SampleOk(StorageFields(c), ToGdds(row, c), 2)
  {
    assert TOKENS != SEGMENT_LENGTHS by { assert |TOKENS| != |SEGMENT_LENGTHS|; }
  }

  /** The encoder produces exactly that many bytes. */
  lemma {:induction false} RecordSize(row: P.Sample, c: nat, record: Data)
    requires Storable(row, c) && Encodes(StorageFields(c), ToGdds(row, c), record)
    ensures |record| == RowBytes(row)
  {
    var fields, sample := StorageFields(c), ToGdds(row, c);
    assert TOKENS != SEGMENT_LENGTHS by { assert |TOKENS| != |SEGMENT_LENGTHS|; }
    PackLength(row.tokens, 2);
    PackLength(row.segmentLengths, 4);
    var es0, es1, es2 := GddsRecord.Entries(fields, sample, 0), GddsRecord.Entries(fields, sample, 1),
      GddsRecord.Entries(fields, sample, 2);
    assert es1 == es0 + [GddsRecord.Entry(0, sample[TOKENS], 0)];
    assert es2 == es1 + [GddsRecord.Entry(1, sample[SEGMENT_LENGTHS], GddsRecord.PayloadLength(es1))];
    assert GddsRecord.PayloadLength(es1) == |Pack(row.tokens, 2)|;
  }

  // ---------- how many segments a row can have ----------

  /** Every non-empty document has at least two tokens. */
  ghost predicate NoSingles(docs: seq<seq<int>>) {
    forall i :: 0 <= i < |docs| ==> |docs[i]| != 1
  }

  /** No document is one token long, as its tokens are numbered: two neighbouring changes never
      happen, and the last token is not a change. */
  ghost predicate NoNeighbours(ids: seq<int>) {
    && (forall p :: 1 <= p < |ids| - 1 && ChangesAt(ids, p) ==> ids[p + 1] == ids[p])
    && (|ids| > 0 ==> |ids| > 1 && !ChangesAt(ids, |ids| - 1))
  }

  lemma {:induction false} OwnersNoNeighbours(docs: seq<seq<int>>)
    requires NoSingles(docs)
    ensures NoNeighbours(P.Owners(docs))
  {
    if docs != [] {
      var n := |docs| - 1;
      OwnersNoNeighbours(docs[..n]);
      AppendRun(P.Owners(docs[..n]), n, |docs[n]|);
    }
  }

  lemma {:induction false} AppendRun(ids: seq<int>, x: int, n: nat)
    requires NoNeighbours(ids) && n != 1
    ensures NoNeighbours(ids + Repeat(x, n))
  {
    var r := ids + Repeat(x, n);
    if n > 0 {
      forall p | 1 <= p < |r| - 1 && ChangesAt(r, p)
        ensures r[p + 1] == r[p]
      {
        if p < |ids| - 1 {
          assert ChangesAt(ids, p);
        }
      }
    } else {
      assert r == ids;
    }
  }

  /** What a labelled window holds. */
  lemma {:induction false} WindowParts(stream: seq<int>, owners: seq<int>, c: nat, k: nat)
    requires c > 0 && |owners| == |stream| && k < P.Windows(|stream|, c)
    ensures var row, base := P.WindowAt(stream, owners, c, k).Label(), P.RowStart(c, k);
            && base + c + 1 <= |stream|
            && row.tokens == stream[base..base + c + 1]
            && row.segmentLengths == SegmentLengths(owners[base..base + c])
  {
    P.WindowsExact(|stream|, c, k);
    var base := P.RowStart(c, k);
    assert owners[base..base + c + 1][..c] == owners[base..base + c];
  }

  lemma {:induction false} HalfChanges(owners: seq<int>, base: nat, c: nat)
    requires c > 0 && NoNeighbours(owners) && base + c < |owners|
    ensures 2 * |SegmentLengths(owners[base..base + c])| <= c + 2
  {
    var ids := owners[base..base + c];
    forall p | 1 <= p < |ids| - 1 && ChangesAt(ids, p)
      ensures ids[p + 1] == ids[p]
    {
      assert ChangesAt(owners, base + p);
    }
    ChangesBound(ids, 1);
  }

  /** A row over such documents has at most `c / 2 + 1` segments. */
  lemma {:induction false} FewSegments(docs: seq<seq<int>>, c: nat, k: nat)
    requires c > 0 && NoSingles(docs) && k < P.Windows(|Flatten(docs)|, c)
    ensures var row := P.WindowAt(Flatten(docs), P.Owners(docs), c, k).Label();
            |row.tokens| == c + 1 && 2 * |row.segmentLengths| <= c + 2
  {
    OwnersNoNeighbours(docs);
    WindowParts(Flatten(docs), P.Owners(docs), c, k);
    HalfChanges(P.Owners(docs), P.RowStart(c, k), c);
  }

  /** Bytes of all rows of a range. */
  function RowsBytes(rows: seq<P.Sample>): nat {
    if rows == [] then 0 else RowsBytes(rows[..|rows| - 1]) + RowBytes(rows[|rows| - 1])
  }

  /** All segments of a range. */
  function SegmentCount(rows: seq<P.Sample>): nat {
    if rows == [] then 0 else SegmentCount(rows[..|rows| - 1]) + |rows[|rows| - 1].segmentLengths|
  }

  ghost predicate FullWidth(rows: seq<P.Sample>, c: nat) {
    forall i :: 0 <= i < |rows| ==> |rows[i].tokens| == c + 1
  }

  /** The size depends on the rows only through their number and their segments. */
  lemma {:induction false} RowsBytesExact(rows: seq<P.Sample>, c: nat)
    requires FullWidth(rows, c)
    ensures RowsBytes(rows) == |rows| * (2 * c + 198) + 4 * SegmentCount(rows)
  {
    if rows != [] {
      RowsBytesExact(rows[..|rows| - 1], c);
      assert |rows| * (2 * c + 198) == (|rows| - 1) * (2 * c + 198) + (2 * c + 198);
    }
  }

  ghost predicate HalfSegments(rows: seq<P.Sample>, c: nat) {
    forall i :: 0 <= i < |rows| ==> 2 * |rows[i].segmentLengths| <= c + 2
  }

  lemma {:induction false} SegmentsBound(rows: seq<P.Sample>, c: nat)
    requires HalfSegments(rows, c)
    ensures 2 * SegmentCount(rows) <= |rows| * (c + 2)
  {
    if rows != [] {
      SegmentsBound(rows[..|rows| - 1], c);
      assert |rows| * (c + 2) == (|rows| - 1) * (c + 2) + (c + 2);
    }
  }

  const DATA_OFFSET: nat := 448

  lemma {:induction false} DataOffsetIs()
    ensures DataOffset(FieldBase(2)) == DATA_OFFSET
  {
  }

  /** Bytes of a shard file with these rows. */
  function ShardBytes(rows: seq<P.Sample>): nat {
    Projected(DATA_OFFSET, RowsBytes(rows), |rows|)
  }

  lemma {:induction false} PerRow(n: nat, c: nat, bytes: nat, segments: nat)
    requires bytes == n * (2 * c + 198) + 4 * segments && 2 * segments <= n * (c + 2)
    ensures bytes + 16 * n <= n * (4 * c + 218)
  {
    assert n * (4 * c + 218) == n * (2 * c + 198) + 2 * (n * (c + 2)) + 16 * n;
  }

  lemma {:induction false} EstimateCovers(n: nat, c: nat, maxShardBytes: nat)
    requires 0 < n <= MaxSamplesPerShard(c, maxShardBytes) && maxShardBytes >= RecordEstimate(c) + 215
    ensures n * (4 * c + 218) + 511 <= maxShardBytes
  {
    var est := RecordEstimate(c);
    if n > 1 {
      DivMod(maxShardBytes, est);
      MulLe(n, maxShardBytes / est, est);
      MulLe(4 * c + 514, est, n);
      assert n * est == est * n && n * (4 * c + 514) == (4 * c + 514) * n;
      assert n * (4 * c + 514) == n * (4 * c + 218) + 296 * n;
    }
  }

  /** The planner's estimate leaves room for everything as long as rows have at most `c / 2 + 1`
      segments. */
  lemma {:induction false} EstimateSuffices(rows: seq<P.Sample>, c: nat, maxShardBytes: nat)
    requires FullWidth(rows, c) && HalfSegments(rows, c) && rows != []
    requires maxShardBytes >= RecordEstimate(c) + 215 && |rows| <= MaxSamplesPerShard(c, maxShardBytes)
    ensures ShardBytes(rows) <= maxShardBytes
  {
    RowsBytesExact(rows, c);
    SegmentsBound(rows, c);
    PerRow(|rows|, c, RowsBytes(rows), SegmentCount(rows));
    EstimateCovers(|rows|, c, maxShardBytes);
    AlignUpIsLeast(DATA_OFFSET + RowsBytes(rows), 64);
  }

  // ---------- planned ranges ----------

  lemma {:induction false} RowsHaveFewSegments(docs: seq<seq<int>>, c: nat, lo: nat, n: nat)
    requires c > 0 && NoSingles(docs) && (n > 0 ==> lo + n <= P.Windows(|Flatten(docs)|, c))
    ensures FullWidth(P.Rows(docs, c, lo, n), c) && HalfSegments(P.Rows(docs, c, lo, n), c)
  {
    forall i | 0 <= i < n
      ensures |P.Rows(docs, c, lo, n)[i].tokens| == c + 1 && 2 * |P.Rows(docs, c, lo, n)[i].segmentLengths| <= c + 2
    {
      P.RowAt(docs, c, lo, n, i);
      FewSegments(docs, c, lo + i);
    }
  }

  /** Every planned shard fits: if no document is exactly one token long and the limit is at least the
      estimate of one row plus 215 bytes (twice the estimate is enough), the file of every range the
      planner can produce stays within the limit. */
  lemma {:induction false} PlannedShardFits(docs: seq<seq<int>>, c: nat, maxShardBytes: nat, r: PlanRange)
    requires c > 0 && NoSingles(docs) && maxShardBytes >= RecordEstimate(c) + 215
    requires 0 < r.count <= MaxSamplesPerShard(c, maxShardBytes) && r.start + r.count <= P.Windows(|Flatten(docs)|, c)
    ensures ShardBytes(RangeRows(docs, c, r)) <= maxShardBytes
  {
    RowsHaveFewSegments(docs, c, r.start, r.count);
    EstimateSuffices(RangeRows(docs, c, r), c, maxShardBytes);
  }

  lemma {:induction false} RowsFullWidth(docs: seq<seq<int>>, c: nat, lo: nat, n: nat)
    requires c > 0 && (n > 0 ==> lo + n <= P.Windows(|Flatten(docs)|, c))
    ensures FullWidth(P.Rows(docs, c, lo, n), c)
  {
    forall i | 0 <= i < n
      ensures |P.Rows(docs, c, lo, n)[i].tokens| == c + 1
    {
      P.RowAt(docs, c, lo, n, i);
      P.WindowsExact(|Flatten(docs)|, c, lo + i);
    }
  }

  // ---------- one-token documents break the estimate ----------

  /** `n` documents of one token each. */
  function Singles(n: nat): (docs: seq<seq<int>>)
    ensures |docs| == n
  {
    seq(n, i => [0])
  }

  lemma {:induction false} SinglesOwners(n: nat)
    ensures |Flatten(Singles(n))| == n
    ensures forall p :: 0 <= p < n ==> P.Owners(Singles(n))[p] == p
  {
    if n > 0 {
      SinglesOwners(n - 1);
      assert Singles(n)[..n - 1] == Singles(n - 1);
    }
  }

  lemma {:induction false} EveryPositionChanges(ids: seq<int>, i: nat)
    requires 1 <= i <= |ids| && forall p :: 1 <= p < |ids| ==> ChangesAt(ids, p)
    ensures |Changes(ids, i)| == |ids| - i
    decreases |ids| - i
  {
    if i < |ids| {
      EveryPositionChanges(ids, i + 1);
    }
  }

  /** Every token belongs to a document of its own. */
  ghost predicate OwnersDistinct(docs: seq<seq<int>>) {
    forall p :: 0 <= p < |P.Owners(docs)| ==> P.Owners(docs)[p] == p
  }

  lemma {:induction false} EqualSegments(rows: seq<P.Sample>, c: nat)
    requires forall i :: 0 <= i < |rows| ==> |rows[i].segmentLengths| == c
    ensures SegmentCount(rows) == P.RowStart(c, |rows|)
  {
    if rows != [] {
      EqualSegments(rows[..|rows| - 1], c);
    }
  }

  lemma {:induction false} DistinctSegments(docs: seq<seq<int>>, c: nat, lo: nat, m: nat)
    requires c > 0 && OwnersDistinct(docs) && (m > 0 ==> lo + m <= P.Windows(|Flatten(docs)|, c))
    ensures SegmentCount(P.Rows(docs, c, lo, m)) == P.RowStart(c, m)
  {
    forall i | 0 <= i < m
      ensures |P.Rows(docs, c, lo, m)[i].segmentLengths| == c
    {
      P.RowAt(docs, c, lo, m, i);
      DistinctRow(docs, c, lo + i);
    }
    EqualSegments(P.Rows(docs, c, lo, m), c);
  }

  lemma {:induction false} DistinctRow(docs: seq<seq<int>>, c: nat, k: nat)
    requires c > 0 && OwnersDistinct(docs) && k < P.Windows(|Flatten(docs)|, c)
    ensures |P.WindowAt(Flatten(docs), P.Owners(docs), c, k).Label().segmentLengths| == c
  {
    WindowParts(Flatten(docs), P.Owners(docs), c, k);
    EveryPositionChanges(P.Owners(docs)[P.RowStart(c, k)..P.RowStart(c, k) + c], 1);
  }

  lemma {:induction false} TwoRowsOverflow(docs: seq<seq<int>>)
    requires OwnersDistinct(docs) && P.Windows(|Flatten(docs)|, 16384) == 2
    ensures ShardBytes(RangeRows(docs, 16384, PlanRange(0, 0, 2))) == 197536
  {
    var rows := RangeRows(docs, 16384, PlanRange(0, 0, 2));
    DistinctSegments(docs, 16384, 0, 2);
    P.RowStartIs(16384, 2);
    RowsFullWidth(docs, 16384, 0, 2);
    RowsBytesExact(rows, 16384);
  }

  /** With one-token documents a planned shard can exceed the limit, even twice the estimate: one worker
      plans two rows of 16384 tokens as one shard under 132100 bytes, and they need 197536. */
  lemma {:induction false} SinglesOverflow()
    ensures var c, limit := 16384, 132100;
            && limit == 2 * RecordEstimate(c)
            && MaxSamplesPerShard(c, limit) == 2
            && ShardCount(2, c, limit, 1) == 1 && PerShard(2, c, limit, 1) == 2
            && P.Windows(|Flatten(Singles(32769))|, c) == 2
            && ShardBytes(RangeRows(Singles(32769), c, PlanRange(0, 0, 2))) == 197536 > limit
  {
    assert RecordEstimate(16384) == 66050;
    SinglesOwners(32769);
    assert P.Windows(1, 16384) == 0 && P.Windows(16385, 16384) == 1;
    TwoRowsOverflow(Singles(32769));
  }
}
