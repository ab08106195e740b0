/** The independent record decoder and the record round trip (`decode_record`). */
module GddsDecode {
  import opened Arith
  import opened Seqs
  import opened Bytes
  import opened GddsSchema
  import opened GddsRecord

  /** A decoded array: stored dtype code, dimensions, raw bytes. */
  datatype ReadTensor = ReadTensor(dtype: nat, shape: seq<I64>, data: Data)

  /** The element sizes the reader knows; code 6 (u16) is missing from its tables. */
  function ReaderSize(code: nat): Option<nat> {
    match code
    case 1 => Some(2)
    case 2 => Some(2)
    case 3 => Some(4)
    case 4 => Some(4)
    case 5 => Some(1)
    case _ => None
  }

  function Numel(shape: seq<I64>): int {
    if shape == [] then 1 else Numel(shape[..|shape| - 1]) * shape[|shape| - 1]
  }

  predicate NonNegative(shape: seq<I64>) {
    forall k :: 0 <= k < |shape| ==> shape[k] >= 0
  }

  /** The fields of one entry as unpacked: `rank` dimensions of the eight stored. */
  datatype RawEntry = RawEntry(id: nat, dims: seq<I64>, off: nat, nbytes: nat)

  function UnpackEntry(raw: Data, base: nat): RawEntry
    requires base + ENTRY_SIZE <= |raw|
  {
    var rank := U(raw, base + 2, 2);
    RawEntry(U(raw, base, 2), Dims(raw, base + 8, if rank < MAX_DIMS then rank else MAX_DIMS),
             U(raw, base + 72, 8), U(raw, base + 80, 8))
  }

  /** The array an entry describes. */
  function Interpret(fields: seq<ReadField>, raw: Data, start: nat, e: RawEntry): Option<(Data, ReadTensor)> {
    if e.id >= |fields| then None
    else
      var size := ReaderSize(fields[e.id].dtype);
      if size.None? || !NonNegative(e.dims) || Numel(e.dims) * size.value != e.nbytes then None
      else if start + e.off + e.nbytes > |raw| then None
      else Some((fields[e.id].name,
                 ReadTensor(fields[e.id].dtype, e.dims, raw[start + e.off..start + e.off + e.nbytes])))
  }

  /** One iteration of the decoding loop; `None` stands for any of the exceptions it can raise. */
  function DecodeEntry(fields: seq<ReadField>, raw: Data, start: nat, j: nat): Option<(Data, ReadTensor)> {
    var base := RECORD_HEADER_SIZE + EntryBase(j);
    if base + ENTRY_SIZE > |raw| then None else Interpret(fields, raw, start, UnpackEntry(raw, base))
  }

  /** The dictionary after `n` entries. */
  function DecodeEntries(fields: seq<ReadField>, raw: Data, start: nat, n: nat): Option<map<Data, ReadTensor>> {
    if n == 0 then Some(map[])
    else
      match DecodeEntries(fields, raw, start, n - 1)
      case None => None
      case Some(out) =>
        match DecodeEntry(fields, raw, start, n - 1)
        case None => None
        case Some((name, t)) => Some(out[name := t])
  }

  function Decode(fields: seq<ReadField>, raw: Data): Option<map<Data, ReadTensor>> {
    if |raw| < RECORD_HEADER_SIZE || raw[..4] != RECORD_MAGIC then None
    else
      var n, start, payload := U(raw, 4, 2), U(raw, 8, 4), U(raw, 12, 8);
      if start + payload > |raw| then None else DecodeEntries(fields, raw, start, n)
  }

  lemma {:induction false} DecodeFailsEarly(fields: seq<ReadField>, raw: Data, start: nat, i: nat, n: nat)
    requires i <= n && DecodeEntries(fields, raw, start, i).None?
    ensures DecodeEntries(fields, raw, start, n).None?
  {
    if i < n {
      DecodeFailsEarly(fields, raw, start, i, n - 1);
    }
  }

  /** `decode_record`. */
  method DecodeRecord(fields: seq<ReadField>, raw: Data) returns (r: Option<map<Data, ReadTensor>>)
    ensures r == Decode(fields, raw)
  {
    if |raw| < RECORD_HEADER_SIZE || raw[..4] != RECORD_MAGIC {
      return None;
    }
    var n, start, payload := U(raw, 4, 2), U(raw, 8, 4), U(raw, 12, 8);
    if start + payload > |raw| {
      return None;
    }
    var out := map[];
    for j := 0 to n
      invariant DecodeEntries(fields, raw, start, j) == Some(out)
    {
      var entry := DecodeEntry(fields, raw, start, j);
      if entry.None? {
        DecodeFailsEarly(fields, raw, start, j + 1, n);
        return None;
      }
      out := out[entry.value.0 := entry.value.1];
    }
    r := Some(out);
  }

  // ---------- round trip ----------

  /** The reader can rebuild this tensor: it knows the dtype and the payload has the right length. */
  predicate Decodable(t: Tensor) {
    && !t.dtype.U16?
    && NonNegative(t.shape)
    && Numel(t.shape) * t.dtype.Size() == |t.data|
  }

  lemma {:induction false} ReaderSizeExact(d: Dtype)
    ensures ReaderSize(d.Code()).Some? <==> !d.U16?
    ensures !d.U16? ==> ReaderSize(d.Code()) == Some(d.Size())
  {
  }

  function AsReadTensor(t: Tensor): ReadTensor {
    ReadTensor(t.dtype.Code(), t.shape, t.data)
  }

  /** An entry belongs to a field of the schema and its payload lies among the first `total` bytes. */
  ghost predicate EntryFits(e: Entry, fields: seq<Field>, total: nat) {
    && e.fieldId < |fields|
    && e.tensor.dtype == fields[e.fieldId].dtype
    && e.offset + |e.tensor.data| <= total
  }

  ghost predicate EntriesFit(es: seq<Entry>, fields: seq<Field>, total: nat) {
    forall j :: 0 <= j < |es| ==> EntryFits(es[j], fields, total)
  }

  lemma {:induction false} EncodedEntriesFit(fields: seq<Field>, sample: Sample, n: nat)
    requires n <= |fields| && SampleOk(fields, sample, n)
    ensures |Entries(fields, sample, n)| <= n
    ensures EntriesFit(Entries(fields, sample, n), fields, PayloadLength(Entries(fields, sample, n)))
  {
    if n > 0 {
      EncodedEntriesFit(fields, sample, n - 1);
      var rest, f := Entries(fields, sample, n - 1), fields[n - 1];
      if !f.collate.Generated? {
        FitsGrow(rest, Entry(n - 1, sample[f.name], PayloadLength(rest)), fields);
      }
    }
  }

  lemma {:induction false} FitsGrow(es: seq<Entry>, e: Entry, fields: seq<Field>)
    requires EntriesFit(es, fields, PayloadLength(es)) && e.offset == PayloadLength(es)
    requires EntryFits(e, fields, e.offset + |e.tensor.data|)
    ensures EntriesFit(es + [e], fields, PayloadLength(es + [e]))
  {
  }

  /** Unpacking an entry gives back what was packed. */
  lemma {:induction false} UnpackRoundTrip(raw: Data, base: nat, e: Entry)
    requires EntryLayout(raw, base, e) && e.fieldId < 0x1_0000 && e.offset < WORD && |e.tensor.data| < WORD
    ensures base + ENTRY_SIZE <= |raw|
    ensures UnpackEntry(raw, base) == RawEntry(e.fieldId, e.tensor.shape, e.offset, |e.tensor.data|)
  {
    Widths();
    ReadBack(raw, base, e.fieldId, 2);
    ReadBack(raw, base + 2, |e.tensor.shape|, 2);
    ReadBack(raw, base + 72, e.offset, 8);
    ReadBack(raw, base + 80, |e.tensor.data|, 8);
    DimsRoundTrip(raw, base + 8, PadShape(e.tensor.shape), |e.tensor.shape|);
    assert PadShape(e.tensor.shape)[..|e.tensor.shape|] == e.tensor.shape;
  }

  /** What the reader should get for one entry. */
  function ExpectedEntry(e: Entry, fields: seq<Field>): Option<(Data, ReadTensor)> {
    if e.fieldId < |fields| && Decodable(e.tensor) then Some((fields[e.fieldId].name, AsReadTensor(e.tensor))) else None
  }

  /** The reader's schema names the same fields with the same dtypes. */
  ghost predicate Mirrors(known: seq<ReadField>, fields: seq<Field>) {
    && |known| == |fields|
    && forall i :: 0 <= i < |fields| ==> known[i].name == fields[i].name && known[i].dtype == fields[i].dtype.Code()
  }

  lemma {:induction false} AllAsReadMirrors(fields: seq<Field>)
    ensures Mirrors(AllAsRead(fields), fields)
  {
  }

  lemma {:induction false} InterpretRoundTrip(raw: Data, start: nat, e: Entry, known: seq<ReadField>,
        fields: seq<Field>, total: nat)
    requires Mirrors(known, fields) && EntryFits(e, fields, total)
    requires start + total == |raw| && At(raw, start + e.offset, e.tensor.data)
    ensures Interpret(known, raw, start, RawEntry(e.fieldId, e.tensor.shape, e.offset, |e.tensor.data|)) ==
            ExpectedEntry(e, fields)
  {
    ReaderSizeExact(e.tensor.dtype);
    AtSlice(raw, start + e.offset, e.tensor.data);
  }

  /** Decoding one entry gives back the field name and the tensor, exactly when it is decodable. */
  lemma {:induction false} EntryRoundTrip(raw: Data, es: seq<Entry>, known: seq<ReadField>, fields: seq<Field>, j: nat)
    requires RecordLayout(raw, es) && EntriesFit(es, fields, PayloadLength(es)) && PayloadLength(es) < WORD
    requires Mirrors(known, fields) && j < |es| && |fields| <= MAX_FIELDS
    ensures DecodeEntry(known, raw, HeaderLength(es), j) == ExpectedEntry(es[j], fields)
  {
    assert EntryPlaced(raw, HeaderLength(es), es, j) && EntryFits(es[j], fields, PayloadLength(es));
    PlacedRoundTrip(raw, HeaderLength(es), es[j], j, known, fields, PayloadLength(es));
  }

  lemma {:induction false} PlacedRoundTrip(raw: Data, start: nat, e: Entry, j: nat, known: seq<ReadField>,
        fields: seq<Field>, total: nat)
    requires EntryLayout(raw, RECORD_HEADER_SIZE + EntryBase(j), e) && At(raw, start + e.offset, e.tensor.data)
    requires Mirrors(known, fields) && EntryFits(e, fields, total) && |fields| <= MAX_FIELDS
    requires start + total == |raw| && total < WORD
    ensures DecodeEntry(known, raw, start, j) == ExpectedEntry(e, fields)
  {
    UnpackRoundTrip(raw, RECORD_HEADER_SIZE + EntryBase(j), e);
    InterpretRoundTrip(raw, start, e, known, fields, total);
  }

  /** What the reader should get for the first `n` entries. */
  function Expected(es: seq<Entry>, fields: seq<Field>, n: nat): Option<map<Data, ReadTensor>>
    requires n <= |es|
  {
    if n == 0 then Some(map[])
    else
      match Expected(es, fields, n - 1)
      case None => None
      case Some(out) =>
        match ExpectedEntry(es[n - 1], fields)
        case None => None
        case Some((name, t)) => Some(out[name := t])
  }

  /** When every entry decodes as expected, so does the whole record. */
  lemma {:induction false} EntriesRoundTrip(raw: Data, es: seq<Entry>, known: seq<ReadField>, fields: seq<Field>,
        n: nat)
    requires n <= |es| && forall j :: 0 <= j < |es| ==> EntryDecodes(raw, es, known, fields, j)
    ensures DecodesAs(raw, es, known, fields, n)
  {
    if n > 0 {
      EntriesRoundTrip(raw, es, known, fields, n - 1);
      DecodeStep(raw, es, known, fields, n);
    }
  }

  ghost predicate EntryDecodes(raw: Data, es: seq<Entry>, known: seq<ReadField>, fields: seq<Field>, j: nat)
    requires j < |es|
  {
    DecodeEntry(known, raw, HeaderLength(es), j) == ExpectedEntry(es[j], fields)
  }

  ghost predicate DecodesAs(raw: Data, es: seq<Entry>, known: seq<ReadField>, fields: seq<Field>, n: nat)
    requires n <= |es|
  {
    DecodeEntries(known, raw, HeaderLength(es), n) == Expected(es, fields, n)
  }

  lemma {:induction false} DecodeStep(raw: Data, es: seq<Entry>, known: seq<ReadField>, fields: seq<Field>, n: nat)
    requires 0 < n <= |es| && DecodesAs(raw, es, known, fields, n - 1)
    requires EntryDecodes(raw, es, known, fields, n - 1)
    ensures DecodesAs(raw, es, known, fields, n)
  {
  }

  /** What the reader should get from the first `n` fields of a sample: every stored tensor under
      its field's name, or an exception when one of them is not decodable. */
  function StoredPart(fields: seq<Field>, sample: Sample, n: nat): Option<map<Data, ReadTensor>>
    requires n <= |fields| && SampleOk(fields, sample, n)
  {
    if n == 0 then Some(map[])
    else
      var rest, f := StoredPart(fields, sample, n - 1), fields[n - 1];
      if rest.None? || f.collate.Generated? then rest
      else if Decodable(sample[f.name]) then Some(rest.value[f.name := AsReadTensor(sample[f.name])])
      else None
  }

  lemma {:induction false} ExpectedPrefix(a: seq<Entry>, b: seq<Entry>, fields: seq<Field>, n: nat)
    requires n <= |a| && a <= b
    ensures Expected(a, fields, n) == Expected(b, fields, n)
  {
    if n > 0 {
      ExpectedPrefix(a, b, fields, n - 1);
    }
  }

  lemma {:induction false} ExpectedIsStored(fields: seq<Field>, sample: Sample, n: nat)
    requires n <= |fields| && SampleOk(fields, sample, n)
    ensures Expected(Entries(fields, sample, n), fields, |Entries(fields, sample, n)|) == StoredPart(fields, sample, n)
  {
    var es := Entries(fields, sample, n);
    if n > 0 {
      ExpectedIsStored(fields, sample, n - 1);
      if !fields[n - 1].collate.Generated? {
        ExpectedPrefix(Entries(fields, sample, n - 1), es, fields, |es| - 1);
      }
    }
  }

  /** Decoding an encoded record gives back exactly the stored part of the sample. */
  lemma {:induction false} RecordRoundTrip(raw: Data, known: seq<ReadField>, fields: seq<Field>, sample: Sample)
    requires Mirrors(known, fields) && |fields| <= MAX_FIELDS && SampleOk(fields, sample, |fields|)
    requires RecordLayout(raw, Entries(fields, sample, |fields|))
    requires PayloadLength(Entries(fields, sample, |fields|)) < WORD
    ensures Decode(known, raw) == StoredPart(fields, sample, |fields|)
  {
    var es := Entries(fields, sample, |fields|);
    EncodedEntriesFit(fields, sample, |fields|);
    Widths();
    ReadBack(raw, 4, |es|, 2);
    ReadBack(raw, 8, HeaderLength(es), 4);
    ReadBack(raw, 12, PayloadLength(es), 8);
    AtSlice(raw, 0, RECORD_MAGIC);
    forall j | 0 <= j < |es|
      ensures EntryDecodes(raw, es, known, fields, j)
    {
      EntryRoundTrip(raw, es, known, fields, j);
    }
    EntriesRoundTrip(raw, es, known, fields, |es|);
    ExpectedIsStored(fields, sample, |fields|);
  }

  /** The exception-free case exactly: every stored tensor has a dtype the reader knows and a
      payload of the right length. Then every stored tensor comes back under its name, and
      nothing else does. */
  lemma {:induction false} StoredPartExact(fields: seq<Field>, sample: Sample, n: nat)
    requires n <= |fields| && SampleOk(fields, sample, n) && UniqueNames(fields)
    ensures StoredPart(fields, sample, n).Some? <==>
            forall i :: 0 <= i < n && !fields[i].collate.Generated? ==> Decodable(sample[fields[i].name])
    ensures StoredPart(fields, sample, n).Some? ==>
              var m := StoredPart(fields, sample, n).value;
              && (forall i :: 0 <= i < n && !fields[i].collate.Generated? ==>
                    fields[i].name in m && m[fields[i].name] == AsReadTensor(sample[fields[i].name]))
              && (forall name :: name in m ==> IsStoredName(name, fields, n))
  {
    if n > 0 {
      StoredPartExact(fields, sample, n - 1);
      StoredNamesGrow(fields, n);
      if !fields[n - 1].collate.Generated? {
        assert IsStoredName(fields[n - 1].name, fields, n);
      }
    }
  }

  ghost predicate IsStoredName(name: Data, fields: seq<Field>, n: nat)
    requires n <= |fields|
  {
    exists i :: 0 <= i < n && !fields[i].collate.Generated? && fields[i].name == name
  }

  lemma {:induction false} StoredNamesGrow(fields: seq<Field>, n: nat)
    requires 0 < n <= |fields|
    ensures forall name :: IsStoredName(name, fields, n - 1) ==> IsStoredName(name, fields, n)
  {
  }

  /** A `u16` field, which the pipeline uses for its token rows, makes the reader raise. */
  lemma {:induction false} U16NotReadable(fields: seq<Field>, sample: Sample, i: nat)
    requires i < |fields| && SampleOk(fields, sample, |fields|) && UniqueNames(fields)
    requires !fields[i].collate.Generated? && fields[i].dtype.U16?
    ensures StoredPart(fields, sample, |fields|).None?
  {
    StoredPartExact(fields, sample, |fields|);
  }
}
