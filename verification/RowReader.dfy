/** Reading packed rows back from a range file, number by number. */
module RowReader {
  import opened Arith
  import opened Seqs
  import opened Bytes
  import opened GddsSchema
  import GddsRecord
  import opened GddsDecode
  import opened GddsShard
  import opened GddsRead
  import opened GddsRoundTrip
  import opened ShardFit
  import P = Packing

  // ---------- the reader ----------

  /** The descriptor and the bytes of the `j`-th tensor of a record, whatever its dtype. */
  function ReadVector(raw: Data, j: nat): Option<(RawEntry, Data)> {
    var base := GddsRecord.RECORD_HEADER_SIZE + GddsRecord.EntryBase(j);
    if |raw| < GddsRecord.RECORD_HEADER_SIZE || base + GddsRecord.ENTRY_SIZE > |raw| then None
    else
      var e := UnpackEntry(raw, base);
      var start := U(raw, 8, 4) + e.off;
      if start + e.nbytes > |raw| then None else Some((e, raw[start..start + e.nbytes]))
  }

  /** Tensor `j` of the record belongs to field `j` and is a vector of exactly these numbers, little-endian
      in `width` bytes each. */
  ghost predicate HoldsNumbers(raw: Data, j: nat, width: nat, values: seq<int>) {
    var v := ReadVector(raw, j);
    && v.Some? && v.value.0.id == j && v.value.0.dims == [|values|]
    && Numbers(v.value.1, width, values)
  }

  ghost predicate Numbers(bytes: Data, width: nat, values: seq<int>) {
    && |bytes| == |values| * width
    && forall i :: 0 <= i < |values| ==> NumberAt(bytes, i * width, width, values[i])
  }

  ghost predicate NumberAt(bytes: Data, pos: int, width: nat, value: int) {
    0 <= pos <= pos + width <= |bytes| && U(bytes, pos, width) == value
  }

  /** The record holds two vectors: the tokens of the row in two bytes each, its run lengths in four. */
  ghost predicate HoldsRow(raw: Data, row: P.Sample) {
    && |raw| >= GddsRecord.RECORD_HEADER_SIZE && U(raw, 4, 2) == 2
    && HoldsNumbers(raw, 0, 2, row.tokens) && HoldsNumbers(raw, 1, 4, row.segmentLengths)
  }

  /** The reader opens the file and finds exactly one record for each row, in their order. */
  ghost predicate HoldsRows(file: Data, rows: seq<P.Sample>) {
    var shard := ReadHeader(file);
    && shard.Some? && shard.value.nSamples == |rows|
    && forall i :: 0 <= i < |rows| ==> RecordHolds(file, shard.value, i, rows[i])
  }

  ghost predicate RecordHolds(file: Data, shard: Shard, i: nat, row: P.Sample) {
    var raw := ReadRecord(file, shard, i);
    raw.Some? && HoldsRow(raw.value, row)
  }

  // ---------- vectors ----------

  lemma {:induction false} PackedNumbers(values: seq<int>, width: nat)
    requires forall k :: 0 <= k < |values| ==> 0 <= values[k] < Pow256(width)
    ensures Numbers(Pack(values, width), width, values)
  {
    PackLength(values, width);
    forall i | 0 <= i < |values|
      ensures NumberAt(Pack(values, width), i * width, width, values[i])
    {
      PackAt(values, width, i);
      MulLe(0, i, width);
      ReadBack(Pack(values, width), i * width, values[i], width);
    }
  }

  // ---------- records ----------

  lemma {:induction false} VectorReads(raw: Data, es: seq<GddsRecord.Entry>, j: nat)
    requires GddsRecord.RecordLayout(raw, es) && j < |es| <= MAX_FIELDS
    requires es[j].fieldId < 0x1_0000 && es[j].offset < WORD && |es[j].tensor.data| < WORD
    ensures ReadVector(raw, j)
            == Some((RawEntry(es[j].fieldId, es[j].tensor.shape, es[j].offset, |es[j].tensor.data|), es[j].tensor.data))
  {
    var hdr := GddsRecord.HeaderLength(es);
    assert GddsRecord.EntryPlaced(raw, hdr, es, j);
    Widths();
    ReadBack(raw, 8, hdr, 4);
    VectorAt(raw, j, hdr, es[j]);
  }

  lemma {:induction false} VectorAt(raw: Data, j: nat, start: nat, e: GddsRecord.Entry)
    requires |raw| >= 12 && U(raw, 8, 4) == start && At(raw, start + e.offset, e.tensor.data)
    requires GddsRecord.EntryLayout(raw, GddsRecord.RECORD_HEADER_SIZE + GddsRecord.EntryBase(j), e)
    requires e.fieldId < 0x1_0000 && e.offset < WORD && |e.tensor.data| < WORD
    ensures ReadVector(raw, j) == Some((RawEntry(e.fieldId, e.tensor.shape, e.offset, |e.tensor.data|), e.tensor.data))
  {
    UnpackRoundTrip(raw, GddsRecord.RECORD_HEADER_SIZE + GddsRecord.EntryBase(j), e);
    AtSlice(raw, start + e.offset, e.tensor.data);
  }

  lemma {:induction false} RowEntries(row: P.Sample, c: nat)
    requires Storable(row, c) && GddsRecord.SampleOk(StorageFields(c), ToGdds(row, c), 2)
    ensures var es := GddsRecord.Entries(StorageFields(c), ToGdds(row, c), 2);
            && |es| == 2
            && es[0] == GddsRecord.Entry(0, GddsRecord.Tensor(U16, [|row.tokens|], Pack(row.tokens, 2)), 0)
            && es[1] == GddsRecord.Entry(1, GddsRecord.Tensor(I32, [|row.segmentLengths|], Pack(row.segmentLengths, 4)),
                          |Pack(row.tokens, 2)|)
  {
    var fields, sample := StorageFields(c), ToGdds(row, c);
    assert TOKENS != SEGMENT_LENGTHS by { assert |TOKENS| != |SEGMENT_LENGTHS|; }
    var es0, es1, es2 := GddsRecord.Entries(fields, sample, 0), GddsRecord.Entries(fields, sample, 1),
      GddsRecord.Entries(fields, sample, 2);
    assert es1 == es0 + [GddsRecord.Entry(0, sample[TOKENS], 0)];
    assert es2 == es1 + [GddsRecord.Entry(1, sample[SEGMENT_LENGTHS], GddsRecord.PayloadLength(es1))];
  }

  /** The record of a row holds its tokens and run lengths, element by element. */
  lemma {:induction false} RecordHoldsRow(row: P.Sample, c: nat, raw: Data)
    requires Storable(row, c) && Encodes(StorageFields(c), ToGdds(row, c), raw) && |raw| < WORD
    ensures HoldsRow(raw, row)
  {
    var es := GddsRecord.Entries(StorageFields(c), ToGdds(row, c), 2);
    RowEntries(row, c);
    Widths();
    PackedNumbers(row.tokens, 2);
    PackedNumbers(row.segmentLengths, 4);
    assert GddsRecord.EntryPlaced(raw, GddsRecord.HeaderLength(es), es, 0);
    assert GddsRecord.EntryPlaced(raw, GddsRecord.HeaderLength(es), es, 1);
    VectorReads(raw, es, 0);
    VectorReads(raw, es, 1);
    ReadBack(raw, 4, 2, 2);
  }

  // ---------- files ----------

  lemma {:induction false} NamesNulFree(c: nat)
    requires c + 1 < 0x8000_0000_0000_0000
    ensures AllNulFree(StorageFields(c))
  {
    assert NulFree(TOKENS) && NulFree(SEGMENT_LENGTHS);
  }

  /** A finished file over the records of rows holds exactly the rows. */
  lemma {:induction false} FileHoldsRows(rows: seq<P.Sample>, c: nat, schema: Data, schemaHash: nat, records: seq<Data>)
    requires c + 1 < 0x8000_0000_0000_0000 && SchemaOk(StorageFields(c)) && SchemaLayout(schema, 0, StorageFields(c))
    requires SmallEnough(schema, schemaHash, records, TotalBytes(records)) && |rows| == |records|
    requires forall i :: 0 <= i < |rows| ==> HoldsRow(records[i], rows[i])
    ensures HoldsRows(ShardFile(2, schema, schemaHash, records, TotalBytes(records)), rows)
  {
    var fields, recorded := StorageFields(c), TotalBytes(records);
    var file := ShardFile(2, schema, schemaHash, records, recorded);
    NamesNulFree(c);
    ShardOpens(fields, schema, schemaHash, records, recorded);
    var shard := ExpectedShard(fields, schema, schemaHash, records, recorded);
    forall i | 0 <= i < |rows|
      ensures RecordHolds(file, shard, i, rows[i])
    {
      assert ReadRecord(file, shard, i) == Some(records[i]);
    }
  }
}
