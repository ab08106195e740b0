/** GDDS records: the encoder (`_encode_record`) and the independent decoder (`decode_record`). */
module GddsRecord {
  import opened Seqs
  import opened Bytes
  import opened GddsSchema

  const RECORD_HEADER_SIZE: nat := 20
  const ENTRY_SIZE: nat := 88
  const RECORD_MAGIC: Data := [0x47, 0x44, 0x44, 0x52]

  /** Where entry `j` starts, counted from the first entry. */
  function EntryBase(j: nat): nat { 88 * j }

  /** A packed tensor (`TensorData`). */
  datatype Tensor = Tensor(dtype: Dtype, shape: seq<I64>, data: Data)

  type Sample = map<Data, Tensor>

  /** `_sample_tensor`: a `TensorData` value the schema accepts for a field. */
  predicate Accepts(f: Field, t: Tensor) {
    && t.dtype == f.dtype
    && |t.shape| == |f.shape|
    && forall k :: 0 <= k < |f.shape| ==> f.shape[k] == -1 || t.shape[k] == f.shape[k]
  }

  /** Every stored field among the first `n` has an acceptable value. */
  predicate SampleOk(fields: seq<Field>, sample: Sample, n: nat)
    requires n <= |fields|
  {
    forall i :: 0 <= i < n && !fields[i].collate.Generated? ==>
      fields[i].name in sample && Accepts(fields[i], sample[fields[i].name])
  }

  /** One stored field of a record, with the offset of its payload. */
  datatype Entry = Entry(fieldId: nat, tensor: Tensor, offset: nat)

  function PayloadLength(es: seq<Entry>): nat {
    if es == [] then 0 else es[|es| - 1].offset + |es[|es| - 1].tensor.data|
  }

  /** The entries of the first `n` fields: generated fields are skipped, payloads follow one another. */
  function Entries(fields: seq<Field>, sample: Sample, n: nat): (es: seq<Entry>)
    requires n <= |fields| && SampleOk(fields, sample, n)
  {
    if n == 0 then []
    else
      var rest, f := Entries(fields, sample, n - 1), fields[n - 1];
      if f.collate.Generated? then rest
      else rest + [Entry(n - 1, sample[f.name], PayloadLength(rest))]
  }

  function HeaderLength(es: seq<Entry>): nat { 20 + EntryBase(|es|) }

  /** `struct.pack("<HHI8qQQ", ...)`. */
  function PackEntry(e: Entry): (s: Data)
    requires |e.tensor.shape| <= MAX_DIMS
    ensures |s| == ENTRY_SIZE
  {
    LE(e.fieldId, 2) + LE(|e.tensor.shape|, 2) + LE(0, 4) + PackSigned(PadShape(e.tensor.shape))
    + LE(e.offset, 8) + LE(|e.tensor.data|, 8)
  }

  /** Where the parts of an entry stand. */
  ghost predicate EntryLayout(s: Data, base: nat, e: Entry) {
    && |e.tensor.shape| <= MAX_DIMS
    && At(s, base, LE(e.fieldId, 2))
    && At(s, base + 2, LE(|e.tensor.shape|, 2))
    && At(s, base + 4, LE(0, 4))
    && At(s, base + 8, PackSigned(PadShape(e.tensor.shape)))
    && At(s, base + 72, LE(e.offset, 8))
    && At(s, base + 80, LE(|e.tensor.data|, 8))
  }

  lemma {:induction false} PackEntryLayout(e: Entry)
    requires |e.tensor.shape| <= MAX_DIMS
    ensures EntryLayout(PackEntry(e), 0, e)
  {
    SixParts(LE(e.fieldId, 2), LE(|e.tensor.shape|, 2), LE(0, 4), PackSigned(PadShape(e.tensor.shape)),
             LE(e.offset, 8), LE(|e.tensor.data|, 8));
  }

  lemma {:induction false} SixParts(a: Data, b: Data, c: Data, d: Data, f: Data, g: Data)
    ensures var s := a + b + c + d + f + g;
            && At(s, 0, a) && At(s, |a|, b) && At(s, |a| + |b|, c) && At(s, |a| + |b| + |c|, d)
            && At(s, |a| + |b| + |c| + |d|, f) && At(s, |a| + |b| + |c| + |d| + |f|, g)
  {
    var abc, df := a + b + c, d + f;
    ThreeParts(a, b, c);
    ThreeParts(abc, d, f);
    AtAppend(abc + d + f, g);
    AtExtend(abc + d, f, 0, abc);
  }

  /** The exact bytes of a record, part by part. */
  ghost predicate RecordLayout(raw: Data, es: seq<Entry>) {
    var hdr := HeaderLength(es);
    && |raw| == hdr + PayloadLength(es)
    && At(raw, 0, RECORD_MAGIC)
    && At(raw, 4, LE(|es|, 2))
    && At(raw, 6, LE(0, 2))
    && At(raw, 8, LE(hdr, 4))
    && At(raw, 12, LE(PayloadLength(es), 8))
    && (forall j :: 0 <= j < |es| ==> EntryPlaced(raw, hdr, es, j))
  }

  ghost predicate EntryPlaced(raw: Data, hdr: nat, es: seq<Entry>, j: nat)
    requires j < |es|
  {
    && EntryLayout(raw, RECORD_HEADER_SIZE + EntryBase(j), es[j])
    && At(raw, hdr + es[j].offset, es[j].tensor.data)
  }

  // ---------- the encoder ----------

  /** The packed entries so far, one chunk each. */
  ghost predicate EntriesPacked(chunks: seq<Data>, es: seq<Entry>) {
    |chunks| == |es| && forall j :: 0 <= j < |es| ==> IsEntry(chunks[j], es[j])
  }

  ghost predicate IsEntry(chunk: Data, e: Entry) {
    |chunk| == ENTRY_SIZE && EntryLayout(chunk, 0, e)
  }

  lemma {:induction false} EntriesGrow(chunks: seq<Data>, es: seq<Entry>, chunk: Data, e: Entry)
    requires EntriesPacked(chunks, es) && IsEntry(chunk, e)
    ensures EntriesPacked(chunks + [chunk], es + [e])
  {
    forall j | 0 <= j < |es|
      ensures IsEntry((chunks + [chunk])[j], (es + [e])[j])
    {
    }
  }

  /** Joined chunks stand at multiples of the entry size. */
  lemma {:induction false} JoinedAt(chunks: seq<Data>, es: seq<Entry>, j: nat)
    requires EntriesPacked(chunks, es) && j < |es|
    ensures |Flatten(chunks)| == EntryBase(|chunks|)
    ensures At(Flatten(chunks), EntryBase(j), chunks[j])
    decreases |chunks|
  {
    var n := |chunks| - 1;
    assert IsEntry(chunks[n], es[n]);
    JoinedLength(chunks[..n], es[..n]);
    AtAppend(Flatten(chunks[..n]), chunks[n]);
    if j < n {
      JoinedAt(chunks[..n], es[..n], j);
      AtExtend(Flatten(chunks[..n]), chunks[n], EntryBase(j), chunks[j]);
    }
  }

  lemma {:induction false} JoinedLength(chunks: seq<Data>, es: seq<Entry>)
    requires EntriesPacked(chunks, es)
    ensures |Flatten(chunks)| == EntryBase(|chunks|)
    decreases |chunks|
  {
    if chunks != [] {
      var n := |chunks| - 1;
      assert IsEntry(chunks[n], es[n]);
      JoinedLength(chunks[..n], es[..n]);
    }
  }

  lemma {:induction false} EntryMoves(raw: Data, base: nat, chunk: Data, e: Entry)
    requires At(raw, base, chunk) && IsEntry(chunk, e)
    ensures EntryLayout(raw, base, e)
  {
    AtNested(raw, base, chunk, 0, LE(e.fieldId, 2));
    AtNested(raw, base, chunk, 2, LE(|e.tensor.shape|, 2));
    AtNested(raw, base, chunk, 4, LE(0, 4));
    AtNested(raw, base, chunk, 8, PackSigned(PadShape(e.tensor.shape)));
    AtNested(raw, base, chunk, 72, LE(e.offset, 8));
    AtNested(raw, base, chunk, 80, LE(|e.tensor.data|, 8));
  }

  /** The payload so far. */
  ghost predicate PayloadPacked(payload: Data, es: seq<Entry>) {
    && |payload| == PayloadLength(es)
    && (forall j :: 0 <= j < |es| ==> At(payload, es[j].offset, es[j].tensor.data))
  }

  lemma {:induction false} PayloadGrows(payload: Data, es: seq<Entry>, e: Entry)
    requires PayloadPacked(payload, es) && e.offset == |payload|
    ensures PayloadPacked(payload + e.tensor.data, es + [e])
  {
    AtAppend(payload, e.tensor.data);
    forall j | 0 <= j < |es|
      ensures At(payload + e.tensor.data, es[j].offset, es[j].tensor.data)
    {
      AtExtend(payload, e.tensor.data, es[j].offset, es[j].tensor.data);
    }
  }

  /** `struct.pack("<4sHHIQ", ...)`. */
  function RecordHeader(count: nat, headerLength: nat, payloadLength: nat): (s: Data)
    ensures |s| == RECORD_HEADER_SIZE
  {
    RECORD_MAGIC + LE(count, 2) + LE(0, 2) + LE(headerLength, 4) + LE(payloadLength, 8)
  }

  lemma {:induction false} RecordHeaderLayout(count: nat, headerLength: nat, payloadLength: nat)
    ensures var head := RecordHeader(count, headerLength, payloadLength);
            && At(head, 0, RECORD_MAGIC)
            && At(head, 4, LE(count, 2))
            && At(head, 6, LE(0, 2))
            && At(head, 8, LE(headerLength, 4))
            && At(head, 12, LE(payloadLength, 8))
  {
  }

  function Assemble(chunks: seq<Data>, payload: Data): Data {
    RecordHeader(|chunks|, RECORD_HEADER_SIZE + EntryBase(|chunks|), |payload|) + Flatten(chunks) + payload
  }

  lemma {:induction false} AssemblePlaces(chunks: seq<Data>, payload: Data, es: seq<Entry>)
    requires EntriesPacked(chunks, es)
    ensures var hdr, raw := HeaderLength(es), Assemble(chunks, payload);
            && |raw| == hdr + |payload|
            && At(raw, 0, RecordHeader(|es|, hdr, |payload|))
            && At(raw, RECORD_HEADER_SIZE, Flatten(chunks))
            && At(raw, hdr, payload)
  {
    JoinedLength(chunks, es);
    ThreeParts(RecordHeader(|es|, HeaderLength(es), |payload|), Flatten(chunks), payload);
  }

  /** The final join of header, entries and payload. */
  method AssembleRecord(chunks: seq<Data>, payload: Data, ghost es: seq<Entry>) returns (raw: Data)
    requires EntriesPacked(chunks, es) && PayloadPacked(payload, es)
    ensures RecordLayout(raw, es)
  {
    raw := Assemble(chunks, payload);
    ghost var hdr := HeaderLength(es);
    AssemblePlaces(chunks, payload, es);
    RecordHeaderLayout(|es|, hdr, |payload|);
    forall j | 0 <= j < |es|
      ensures EntryPlaced(raw, hdr, es, j)
    {
      JoinedAt(chunks, es, j);
      AtNested(raw, RECORD_HEADER_SIZE, Flatten(chunks), EntryBase(j), chunks[j]);
      EntryMoves(raw, RECORD_HEADER_SIZE + EntryBase(j), chunks[j], es[j]);
      AtNested(raw, hdr, payload, es[j].offset, es[j].tensor.data);
    }
  }

  method EncodeEntry(e: Entry) returns (chunk: Data)
    requires |e.tensor.shape| <= MAX_DIMS
    ensures IsEntry(chunk, e)
  {
    PackEntryLayout(e);
    chunk := PackEntry(e);
  }

  /** The encoder after `n` fields. */
  ghost predicate EncodedUpTo(fields: seq<Field>, sample: Sample, n: nat, chunks: seq<Data>, payload: Data)
    requires n <= |fields|
  {
    && SampleOk(fields, sample, n)
    && EntriesPacked(chunks, Entries(fields, sample, n))
    && PayloadPacked(payload, Entries(fields, sample, n))
  }

  lemma {:induction false} GeneratedSkipped(fields: seq<Field>, sample: Sample, i: nat, chunks: seq<Data>,
        payload: Data)
    requires i < |fields| && EncodedUpTo(fields, sample, i, chunks, payload) && fields[i].collate.Generated?
    ensures EncodedUpTo(fields, sample, i + 1, chunks, payload)
  {
  }

  lemma {:induction false} StoredAdded(fields: seq<Field>, sample: Sample, i: nat, chunks: seq<Data>, payload: Data,
        chunk: Data)
    requires i < |fields| && EncodedUpTo(fields, sample, i, chunks, payload) && !fields[i].collate.Generated?
    requires fields[i].name in sample && Accepts(fields[i], sample[fields[i].name])
    requires IsEntry(chunk, Entry(i, sample[fields[i].name], |payload|))
    ensures EncodedUpTo(fields, sample, i + 1, chunks + [chunk], payload + sample[fields[i].name].data)
  {
    var es, e := Entries(fields, sample, i), Entry(i, sample[fields[i].name], |payload|);
    EntriesGrow(chunks, es, chunk, e);
    PayloadGrows(payload, es, e);
    assert SampleOk(fields, sample, i + 1);
    assert Entries(fields, sample, i + 1) == es + [e];
  }

  /** `_encode_record`: `None` stands for the `ValueError` of a missing or mismatched field. */
  method EncodeRecord(fields: seq<Field>, sample: Sample) returns (r: Option<Data>)
    requires SchemaOk(fields)
    ensures r.Some? <==> SampleOk(fields, sample, |fields|)
    ensures r.Some? ==> RecordLayout(r.value, Entries(fields, sample, |fields|))
  {
    var payload: Data, chunks: seq<Data> := [], [];
    for i := 0 to |fields|
      invariant EncodedUpTo(fields, sample, i, chunks, payload)
    {
      var f := fields[i];
      if f.collate.Generated? {
        GeneratedSkipped(fields, sample, i, chunks, payload);
        continue;
      }
      if f.name !in sample || !Accepts(f, sample[f.name]) {
        return None;
      }
      assert FieldOk(f);
      var t := sample[f.name];
      var chunk := EncodeEntry(Entry(i, t, |payload|));
      StoredAdded(fields, sample, i, chunks, payload, chunk);
      chunks := chunks + [chunk];
      payload := payload + t.data;
    }
    var raw := AssembleRecord(chunks, payload, Entries(fields, sample, |fields|));
    r := Some(raw);
  }
}
