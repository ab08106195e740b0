/** One GDDS shard file, byte for byte: header, schema, records back to back, trailing index. */
module GddsShard {
  import opened Arith
  import opened Seqs
  import opened Bytes

  const HEADER_SIZE: nat := 128
  const INDEX_ENTRY_SIZE: nat := 16
  const MAGIC: Data := [0x47, 0x44, 0x44, 0x53, 0x76, 0x31, 0, 0]

  /** Where index entry `i` starts, counted from the start of the index. */
  function IndexBase(i: nat): nat { 16 * i }

  function DataOffset(schemaLength: nat): nat { AlignUp(HEADER_SIZE + schemaLength, 64) }

  /** `_projected_shard_nbytes`. */
  function Projected(dataOffset: nat, dataNbytes: nat, n: nat): nat {
    AlignUp(dataOffset + dataNbytes, 64) + IndexBase(n)
  }

  function TotalBytes(records: seq<Data>): nat {
    if records == [] then 0 else TotalBytes(records[..|records| - 1]) + |records[|records| - 1]|
  }

  /** Where the records start when they stand back to back from `base` on. */
  function StartsAt(base: nat, records: seq<Data>): (pos: seq<nat>)
    ensures |pos| == |records|
  {
    if records == [] then []
    else StartsAt(base, records[..|records| - 1]) + [base + TotalBytes(records[..|records| - 1])]
  }

  lemma {:induction false} TotalSnoc(records: seq<Data>, r: Data)
    ensures TotalBytes(records + [r]) == TotalBytes(records) + |r|
  {
    assert (records + [r])[..|records|] == records;
  }

  lemma {:induction false} TotalAppend(a: seq<Data>, b: seq<Data>)
    ensures TotalBytes(a + b) == TotalBytes(a) + TotalBytes(b)
  {
    if b == [] {
      assert a + b == a;
    } else {
      var n := |b| - 1;
      TotalAppend(a, b[..n]);
      assert a + b == a + b[..n] + [b[n]];
      TotalSnoc(a + b[..n], b[n]);
    }
  }

  lemma {:induction false} TotalIsLength(records: seq<Data>)
    ensures |Flatten(records)| == TotalBytes(records)
  {
    if records != [] {
      TotalIsLength(records[..|records| - 1]);
    }
  }

  /** Index entries tile the data region: the first starts at its start, each starts where the one
      before ends, and the last ends at its end. */
  lemma {:induction false} StartsTile(base: nat, records: seq<Data>)
    ensures var pos := StartsAt(base, records);
            && (records != [] ==>
              pos[0] == base
              && pos[|pos| - 1] + |records[|records| - 1]| == base + TotalBytes(records))
            && forall i :: 0 < i < |pos| ==> pos[i] == pos[i - 1] + |records[i - 1]|
  {
    if records != [] {
      StartsTile(base, records[..|records| - 1]);
    }
  }

  lemma {:induction false} StartIs(base: nat, records: seq<Data>, i: nat)
    requires i < |records|
    ensures StartsAt(base, records)[i] == base + |Flatten(records[..i])|
    decreases |records|
  {
    var n := |records| - 1;
    if i < n {
      StartIs(base, records[..n], i);
      assert records[..n][..i] == records[..i];
    } else {
      TotalIsLength(records[..n]);
    }
  }

  // ---------- header ----------

  datatype HeaderInfo = HeaderInfo(fieldCount: nat, nSamples: nat, indexOffset: nat, dataOffset: nat,
                                   dataNbytes: nat, schemaHash: nat)

  /** The first 24 bytes. */
  function HeaderStart(h: HeaderInfo): (s: Data)
    ensures |s| == 24
  {
    MAGIC + LE(1, 4) + LE(HEADER_SIZE, 4) + LE(h.fieldCount, 4) + LE(0, 4)
  }

  /** The six 64-bit fields. */
  function HeaderFields(h: HeaderInfo): (s: Data)
    ensures |s| == 48
  {
    LE(h.nSamples, 8) + LE(HEADER_SIZE, 8) + LE(h.indexOffset, 8) + LE(h.dataOffset, 8) + LE(h.dataNbytes, 8)
    + LE(h.schemaHash, 8)
  }

  function HeaderBytes(h: HeaderInfo): (s: Data)
    ensures |s| == HEADER_SIZE
  {
    HeaderStart(h) + HeaderFields(h) + Zeros(56)
  }

  /** Writing behind a filled prefix extends the prefix. */
  method Fill(header: Data, ghost prefix: Data, off: nat, p: Data) returns (r: Data)
    requires off == |prefix| && off + |p| <= |header| && header == prefix + Zeros(|header| - |prefix|)
    ensures |r| == |header| && r == prefix + p + Zeros(|header| - |prefix + p|)
  {
    r := PackInto(header, off, p);
    assert header[..off] == prefix;
    assert header[off + |p|..] == Zeros(|header| - |prefix + p|);
  }

  /** `_build_header`: the fields are written in place over zeros. */
  method BuildHeader(h: HeaderInfo) returns (header: Data)
    ensures header == HeaderBytes(h)
  {
    header := Zeros(HEADER_SIZE);
    assert header == [] + Zeros(HEADER_SIZE - 0);
    header := Fill(header, [], 0, MAGIC);
    assert [] + MAGIC == MAGIC;
    header := FillStart(header, h);
    header := FillFields(header, h);
  }

  method FillStart(header0: Data, h: HeaderInfo) returns (header: Data)
    requires header0 == MAGIC + Zeros(HEADER_SIZE - 8)
    ensures header == HeaderStart(h) + Zeros(HEADER_SIZE - 24)
  {
    header := Fill(header0, MAGIC, 8, LE(1, 4));
    header := Fill(header, MAGIC + LE(1, 4), 12, LE(HEADER_SIZE, 4));
    header := Fill(header, MAGIC + LE(1, 4) + LE(HEADER_SIZE, 4), 16, LE(h.fieldCount, 4));
    header := Fill(header, MAGIC + LE(1, 4) + LE(HEADER_SIZE, 4) + LE(h.fieldCount, 4), 20, LE(0, 4));
  }

  method FillFields(header0: Data, h: HeaderInfo) returns (header: Data)
    requires header0 == HeaderStart(h) + Zeros(HEADER_SIZE - 24)
    ensures header == HeaderBytes(h)
  {
    ghost var start := HeaderStart(h);
    ghost var a, b, c := LE(h.nSamples, 8), LE(HEADER_SIZE, 8), LE(h.indexOffset, 8);
    ghost var d, e, f := LE(h.dataOffset, 8), LE(h.dataNbytes, 8), LE(h.schemaHash, 8);
    header := FillThree(header0, start, 24, LE(h.nSamples, 8), LE(HEADER_SIZE, 8), LE(h.indexOffset, 8));
    header := FillThree(header, start + a + b + c, 48, LE(h.dataOffset, 8), LE(h.dataNbytes, 8), LE(h.schemaHash, 8));
    SevenParts(start, a, b, c, d, e, f);
  }

  method FillThree(header0: Data, ghost prefix: Data, off: nat, a: Data, b: Data, c: Data) returns (header: Data)
    requires off == |prefix| && |a| == |b| == |c| == 8 && off + 24 <= |header0|
    requires header0 == prefix + Zeros(|header0| - |prefix|)
    ensures |header| == |header0| && header == prefix + a + b + c + Zeros(|header0| - |prefix + a + b + c|)
  {
    header := Fill(header0, prefix, off, a);
    header := Fill(header, prefix + a, off + 8, b);
    header := Fill(header, prefix + a + b, off + 16, c);
  }

  lemma {:induction false} SevenParts(s: Data, a: Data, b: Data, c: Data, d: Data, e: Data, f: Data)
    ensures s + a + b + c + d + e + f == s + (a + b + c + d + e + f)
  {
  }

  // ---------- body ----------

  /** `struct.pack("<QQ", ...)`. */
  function PackIndexEntry(position: nat, length: nat): (s: Data)
    ensures |s| == INDEX_ENTRY_SIZE
  {
    LE(position, 8) + LE(length, 8)
  }

  /** The trailing index of records that stand back to back from `base` on. */
  function IndexBytes(base: nat, records: seq<Data>): (s: Data)
    ensures |s| == IndexBase(|records|)
  {
    if records == [] then []
    else
      var rest := records[..|records| - 1];
      IndexBytes(base, rest) + PackIndexEntry(base + TotalBytes(rest), |records[|records| - 1]|)
  }

  lemma {:induction false} IndexBytesSnoc(base: nat, records: seq<Data>, r: Data)
    ensures IndexBytes(base, records + [r])
        == IndexBytes(base, records) + PackIndexEntry(base + TotalBytes(records), |r|)
  {
    assert (records + [r])[..|records|] == records;
  }

  /** The index of a batch appended to an existing index. */
  lemma {:induction false} IndexBytesAppend(base: nat, a: seq<Data>, b: seq<Data>)
    ensures IndexBytes(base, a + b) == IndexBytes(base, a) + IndexBytes(base + TotalBytes(a), b)
  {
    if b == [] {
      assert a + b == a;
    } else {
      var n := |b| - 1;
      IndexBytesAppend(base, a, b[..n]);
      TotalAppend(a, b[..n]);
      IndexAppendStep(base, a, b[..n], b[n]);
      assert b == b[..n] + [b[n]];
    }
  }

  lemma {:induction false} IndexAppendStep(base: nat, a: seq<Data>, b: seq<Data>, r: Data)
    requires IndexBytes(base, a + b) == IndexBytes(base, a) + IndexBytes(base + TotalBytes(a), b)
    requires TotalBytes(a + b) == TotalBytes(a) + TotalBytes(b)
    ensures IndexBytes(base, a + (b + [r])) == IndexBytes(base, a) + IndexBytes(base + TotalBytes(a), b + [r])
  {
    Assoc(a, b, [r]);
    IndexBytesSnoc(base, a + b, r);
    IndexBytesSnoc(base + TotalBytes(a), b, r);
    Assoc(IndexBytes(base, a), IndexBytes(base + TotalBytes(a), b), PackIndexEntry(base + TotalBytes(a + b), |r|));
  }

  lemma {:induction false} IndexEntryAt(base: nat, records: seq<Data>, i: nat)
    requires i < |records|
    ensures At(IndexBytes(base, records), IndexBase(i), PackIndexEntry(StartsAt(base, records)[i], |records[i]|))
    decreases |records|
  {
    var n := |records| - 1;
    var front, last := IndexBytes(base, records[..n]), PackIndexEntry(base + TotalBytes(records[..n]), |records[n]|);
    if i < n {
      IndexEntryAt(base, records[..n], i);
      AtExtend(front, last, IndexBase(i), PackIndexEntry(StartsAt(base, records[..n])[i], |records[i]|));
    } else {
      AtAppend(front, last);
    }
  }

  function SchemaPad(schema: Data): (s: Data)
    ensures HEADER_SIZE + |schema| + |s| == DataOffset(|schema|)
  {
    AlignUpIsLeast(HEADER_SIZE + |schema|, 64);
    Zeros(DataOffset(|schema|) - HEADER_SIZE - |schema|)
  }

  function DataPad(end: nat): (s: Data)
    ensures end + |s| == AlignUp(end, 64)
  {
    AlignUpIsLeast(end, 64);
    Zeros(AlignUp(end, 64) - end)
  }

  /** A file under construction: header, schema, zeros up to the data region, then the records. */
  function Body(head: Data, schema: Data, records: seq<Data>): Data {
    head + schema + SchemaPad(schema) + Flatten(records)
  }

  lemma {:induction false} BodyLength(head: Data, schema: Data, records: seq<Data>)
    requires |head| == HEADER_SIZE
    ensures |Body(head, schema, records)| == DataOffset(|schema|) + TotalBytes(records)
  {
    TotalIsLength(records);
  }

  /** The records of a batch appended to a body. */
  lemma {:induction false} BodyAppend(head: Data, schema: Data, records: seq<Data>, batch: seq<Data>)
    ensures Body(head, schema, records) + Flatten(batch) == Body(head, schema, records + batch)
  {
    FlattenAppend(records, batch);
    Assoc(head + schema + SchemaPad(schema), Flatten(records), Flatten(batch));
  }

  /** A complete file with these first 128 bytes. */
  function Sealed(head: Data, schema: Data, records: seq<Data>): Data {
    Body(head, schema, records) + DataPad(DataOffset(|schema|) + TotalBytes(records))
      + IndexBytes(DataOffset(|schema|), records)
  }

  /** The header of a finished shard; `recorded` is the data size it claims. */
  function ShardHeader(fieldCount: nat, schema: Data, schemaHash: nat, records: seq<Data>, recorded: nat): HeaderInfo {
    var dataOffset := DataOffset(|schema|);
    HeaderInfo(fieldCount, |records|, AlignUp(dataOffset + TotalBytes(records), 64), dataOffset, recorded, schemaHash)
  }

  /** The exact bytes of a finished shard. */
  function ShardFile(fieldCount: nat, schema: Data, schemaHash: nat, records: seq<Data>, recorded: nat): Data {
    Sealed(HeaderBytes(ShardHeader(fieldCount, schema, schemaHash, records, recorded)), schema, records)
  }

  lemma {:induction false} SealedLength(head: Data, schema: Data, records: seq<Data>)
    requires |head| == HEADER_SIZE
    ensures |Sealed(head, schema, records)| == Projected(DataOffset(|schema|), TotalBytes(records), |records|)
  {
    BodyLength(head, schema, records);
  }

  /** The header goes in last, over the zeros at the front. */
  lemma {:induction false} HeadReplaced(before: Data, head: Data, schema: Data, records: seq<Data>)
    requires |before| == |head| == HEADER_SIZE
    ensures |head| <= |Sealed(before, schema, records)|
    ensures PackInto(Sealed(before, schema, records), 0, head) == Sealed(head, schema, records)
  {
    var pad, index := DataPad(DataOffset(|schema|) + TotalBytes(records)), IndexBytes(DataOffset(|schema|), records);
    var rest := schema + SchemaPad(schema) + Flatten(records) + pad + index;
    SealedSplit(before, schema, records, rest);
    SealedSplit(head, schema, records, rest);
    Overwrite(before, head, rest);
  }

  lemma {:induction false} SealedSplit(head: Data, schema: Data, records: seq<Data>, rest: Data)
    requires rest == schema + SchemaPad(schema) + Flatten(records)
                     + DataPad(DataOffset(|schema|) + TotalBytes(records)) + IndexBytes(DataOffset(|schema|), records)
    ensures Sealed(head, schema, records) == head + rest
  {
    var a, b, c := schema, SchemaPad(schema), Flatten(records);
    var d, e := DataPad(DataOffset(|schema|) + TotalBytes(records)), IndexBytes(DataOffset(|schema|), records);
    FiveParts(head, a, b, c, d, e);
  }

  lemma {:induction false} FiveParts(h: Data, a: Data, b: Data, c: Data, d: Data, e: Data)
    ensures h + a + b + c + d + e == h + (a + b + c + d + e)
  {
  }

  lemma {:induction false} Overwrite(x: Data, y: Data, rest: Data)
    requires |x| == |y|
    ensures PackInto(x + rest, 0, y) == y + rest
  {
  }

  /** Where the parts of a body stand. */
  lemma {:induction false} BodyParts(head: Data, schema: Data, records: seq<Data>)
    requires |head| == HEADER_SIZE
    ensures var body := Body(head, schema, records);
            At(body, 0, head) && At(body, HEADER_SIZE, schema) && At(body, DataOffset(|schema|), Flatten(records))
  {
    var front, payload := head + schema + SchemaPad(schema), Flatten(records);
    ThreeParts(head, schema, SchemaPad(schema));
    AtAppend(front, payload);
    AtExtend(front, payload, 0, head);
    AtExtend(front, payload, HEADER_SIZE, schema);
  }

  /** Where the parts of a complete file stand. */
  lemma {:induction false} SealedParts(head: Data, schema: Data, records: seq<Data>)
    requires |head| == HEADER_SIZE
    ensures var file, dataOffset := Sealed(head, schema, records), DataOffset(|schema|);
            && At(file, 0, head)
            && At(file, HEADER_SIZE, schema)
            && At(file, dataOffset, Flatten(records))
            && At(file, AlignUp(dataOffset + TotalBytes(records), 64), IndexBytes(dataOffset, records))
  {
    var body, end := Body(head, schema, records), DataOffset(|schema|) + TotalBytes(records);
    BodyLength(head, schema, records);
    BodyParts(head, schema, records);
    ThreeParts(body, DataPad(end), IndexBytes(DataOffset(|schema|), records));
    InFront(body, DataPad(end), IndexBytes(DataOffset(|schema|), records), 0, head);
    InFront(body, DataPad(end), IndexBytes(DataOffset(|schema|), records), HEADER_SIZE, schema);
    InFront(body, DataPad(end), IndexBytes(DataOffset(|schema|), records), DataOffset(|schema|), Flatten(records));
  }

  lemma {:induction false} InFront(a: Data, b: Data, c: Data, off: nat, p: Data)
    requires At(a, off, p)
    ensures At(a + b + c, off, p)
  {
    AtExtend(a, b, off, p);
    AtExtend(a + b, c, off, p);
  }

  /** The bytes of record `i`. */
  lemma {:induction false} RecordAt(file: Data, base: nat, records: seq<Data>, i: nat)
    requires At(file, base, Flatten(records)) && i < |records|
    ensures At(file, StartsAt(base, records)[i], records[i])
  {
    var payload, off := Flatten(records), |Flatten(records[..i])|;
    FlattenAt(records, i);
    AtSlice(payload, off, records[i]);
    AtNested(file, base, payload, off, records[i]);
    StartIs(base, records, i);
  }
}
