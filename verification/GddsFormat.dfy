/** The numbers of the GDDS format: type, collation and generator codes, pad values, the shapes that the schema
    fixes in every record, and what the reader refuses. */
module GddsFormat {
  import opened Arith
  import opened Bytes
  import opened GddsSchema
  import opened GddsRecord
  import opened GddsDecode
  import opened GddsRead

  /** The codes by name. */
  const DTYPES: seq<Dtype> := [F16, BF16, F32, I32, U8, U16]
  const DTYPE_SIZES: seq<nat> := [2, 2, 4, 4, 1, 2]
  const COLLATIONS: seq<Collate> := [Stack, PadLongest, PackedSequence, Collate.Generated]
  const GENERATORS: seq<Generator> := [NoGenerator, Lengths, Mask, CuSeqlens, Positions, CuSeqlensFromLengths]

  /** Type code `k + 1` is the `k`-th type, with elements of that many bytes. */
  lemma {:induction false} DtypeCodes(d: Dtype)
    ensures DTYPES[d.Code() - 1] == d && DTYPE_SIZES[d.Code() - 1] == d.Size()
  {
  }

  /** The flags by name: collation, generator, one more than the ragged dimension, and one more than the place of
      the source field. */
  lemma {:induction false} FlagsExact(fields: seq<Field>, i: nat)
    requires SchemaOk(fields) && i < |fields|
    ensures var f, flags := fields[i], FieldFlags(fields[i], fields);
            && flags % 0x100 < 4 && COLLATIONS[flags % 0x100] == f.collate
            && flags / 0x100 % 0x100 < 6 && GENERATORS[flags / 0x100 % 0x100] == f.generated
            && flags / 0x1_0000 % 0x100 == (match f.raggedDim case None => 0 case Some(d) => d + 1)
            && (f.source.None? <==> flags / 0x100_0000 == 0)
            && (f.source.Some? ==>
              0 < flags / 0x100_0000 <= |fields| && fields[flags / 0x100_0000 - 1].name == f.source.value)
  {
    assert FieldOk(fields[i]);
    FlagsUnpack(fields[i], fields);
    CodesNamed(fields[i]);
  }

  lemma {:induction false} CodesNamed(f: Field)
    ensures f.collate.Code() < 4 && COLLATIONS[f.collate.Code()] == f.collate
    ensures f.generated.Code() < 6 && GENERATORS[f.generated.Code()] == f.generated
  {
  }

  /** The pad value of a field stands in the last but one slot of its descriptor, which the reader skips. */
  lemma {:induction false} PadValueReads(s: Data, off: nat, fields: seq<Field>, i: nat)
    requires SchemaOk(fields) && SchemaLayout(s, off, fields) && i < |fields|
    ensures off + FieldBase(i) + 160 <= |s| && U(s, off + FieldBase(i) + 144, 8) == fields[i].padBits
  {
    assert FieldOk(fields[i]) && FieldLayoutOf(s, off, fields, i);
    Widths();
    ReadBack(s, off + FieldBase(i) + 144, fields[i].padBits, 8);
  }

  /** Whatever is decoded from a record conforms to the schema: the stored tensors and no others, of the type, the
      rank and the fixed sizes that the schema gives their fields. */
  lemma {:induction false} RecordConforms(fields: seq<Field>, known: seq<ReadField>, sample: Sample, raw: Data, i: nat)
    requires SchemaOk(fields) && Mirrors(known, fields) && SampleOk(fields, sample, |fields|)
    requires RecordLayout(raw, Entries(fields, sample, |fields|))
    requires PayloadLength(Entries(fields, sample, |fields|)) < WORD
    requires Decode(known, raw).Some? && i < |fields| && !fields[i].collate.Generated?
    ensures var m, f := Decode(known, raw).value, fields[i];
            && f.name in m && m[f.name].dtype == f.dtype.Code() && |m[f.name].shape| == |f.shape|
            && forall k :: 0 <= k < |f.shape| ==> f.shape[k] == -1 || m[f.name].shape[k] == f.shape[k]
  {
    RecordRoundTrip(raw, known, fields, sample);
    StoredPartExact(fields, sample, |fields|);
    assert Accepts(fields[i], sample[fields[i].name]);
  }

  // ---------- what the reader refuses ----------

  /** A file opens exactly when it has the 72 bytes that the reader unpacks, the magic `GDDSv1`, version 1, a header
      of 128 bytes, and all its field descriptors. */
  lemma {:induction false} OpensExact(file: Data)
    ensures ReadHeader(file).Some? <==>
            && |file| >= 72 && file[..8] == [71, 68, 68, 83, 118, 49, 0, 0] && U(file, 8, 4) == 1
            && U(file, 12, 4) == 128 && (U(file, 16, 4) == 0 || U(file, 32, 8) + 160 * U(file, 16, 4) <= |file|)
  {
    if |file| >= 72 {
      FieldsRead(file, U(file, 32, 8), U(file, 16, 4));
    }
  }

  lemma {:induction false} FieldsRead(file: Data, off: nat, n: nat)
    ensures ReadFields(file, off, n).Some? <==> n == 0 || off + 160 * n <= |file|
  {
    var results := FieldResults(file, off, n);
    if n > 0 && off + 160 * n > |file| {
      assert results[n - 1].None?;
    } else {
      assert forall i :: 0 <= i < n ==> results[i].Some?;
    }
  }

  /** A record decodes exactly when its header is whole, begins with `GDDR`, promises no more payload than there
      is, and every entry is good. */
  lemma {:induction false} DecodesExact(known: seq<ReadField>, raw: Data)
    ensures Decode(known, raw).Some? <==>
            && |raw| >= 20 && raw[..4] == [71, 68, 68, 82] && U(raw, 8, 4) + U(raw, 12, 8) <= |raw|
            && forall j :: 0 <= j < U(raw, 4, 2) ==> GoodEntry(known, raw, U(raw, 8, 4), j)
  {
    if |raw| >= 20 {
      var start, n := U(raw, 8, 4), U(raw, 4, 2);
      EntriesDecode(known, raw, start, n);
      forall j: nat
        ensures DecodeEntry(known, raw, start, j).Some? <==> GoodEntry(known, raw, start, j)
      {
        EntryDecodesExact(known, raw, start, j);
      }
    }
  }

  /** Entry `j` names a known field of a known type, with no negative size, as many bytes as its sizes need, all of
      them inside the record. */
  ghost predicate GoodEntry(known: seq<ReadField>, raw: Data, start: nat, j: nat) {
    20 + 88 * j + 88 <= |raw| && GoodNumbers(known, raw, start, UnpackEntry(raw, 20 + 88 * j))
  }

  ghost predicate GoodNumbers(known: seq<ReadField>, raw: Data, start: nat, e: RawEntry) {
    && e.id < |known| && 1 <= known[e.id].dtype <= 5 && NonNegative(e.dims)
    && Numel(e.dims) * DTYPE_SIZES[known[e.id].dtype - 1] == e.nbytes && start + e.off + e.nbytes <= |raw|
  }

  lemma {:induction false} InterpretExact(known: seq<ReadField>, raw: Data, start: nat, e: RawEntry)
    ensures Interpret(known, raw, start, e).Some? <==> GoodNumbers(known, raw, start, e)
  {
  }

  lemma {:induction false} EntryDecodesExact(known: seq<ReadField>, raw: Data, start: nat, j: nat)
    ensures DecodeEntry(known, raw, start, j).Some? <==> GoodEntry(known, raw, start, j)
  {
    if 20 + 88 * j + 88 <= |raw| {
      InterpretExact(known, raw, start, UnpackEntry(raw, 20 + 88 * j));
    }
  }

  lemma {:induction false} EntriesDecode(known: seq<ReadField>, raw: Data, start: nat, n: nat)
    ensures DecodeEntries(known, raw, start, n).Some? <==>
            forall j :: 0 <= j < n ==> DecodeEntry(known, raw, start, j).Some?
  {
    if n > 0 {
      EntriesDecode(known, raw, start, n - 1);
    }
  }
}
