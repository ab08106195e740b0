/** The GDDS field schema: writer (`_encode_schema`) and the independent reader
    (`read_shard_header`). */
module GddsSchema {
  import opened Arith
  import opened Seqs
  import opened Bytes

  const FIELD_DESC_SIZE: nat := 160
  const FIELD_NAME_MAX: nat := 64
  const MAX_DIMS: nat := 8
  const MAX_FIELDS: nat := 256

  /** Where descriptor `i` starts. */
  function FieldBase(i: nat): nat { 160 * i }

  datatype Dtype = F16 | BF16 | F32 | I32 | U8 | U16 {
    function Code(): (c: nat)
      ensures 1 <= c <= 6
    {
      match this
      case F16 => 1
      case BF16 => 2
      case F32 => 3
      case I32 => 4
      case U8 => 5
      case U16 => 6
    }

    function Size(): (n: nat)
      ensures n > 0
    {
      match this
      case U8 => 1
      case F16 => 2
      case BF16 => 2
      case U16 => 2
      case F32 => 4
      case I32 => 4
    }
  }

  datatype Collate = Stack | PadLongest | PackedSequence | Generated {
    function Code(): nat {
      match this
      case Stack => 0
      case PadLongest => 1
      case PackedSequence => 2
      case Generated => 3
    }
  }

  datatype Generator = NoGenerator | Lengths | Mask | CuSeqlens | Positions | CuSeqlensFromLengths {
    function Code(): nat {
      match this
      case NoGenerator => 0
      case Lengths => 1
      case Mask => 2
      case CuSeqlens => 3
      case Positions => 4
      case CuSeqlensFromLengths => 5
    }
  }

  /** One field of a normalized schema; the name is its UTF-8 bytes, `padBits` the packed pad value. */
  datatype Field = Field(name: Data, dtype: Dtype, shape: seq<I64>, collate: Collate, raggedDim: Option<nat>,
                         padBits: nat, generated: Generator, source: Option<Data>)

  /** What `_normalize_field` guarantees of one field. */
  ghost predicate FieldOk(f: Field) {
    && 0 < |f.name| < FIELD_NAME_MAX
    && |f.shape| <= MAX_DIMS
    && (forall k :: 0 <= k < |f.shape| ==> f.shape[k] == -1 || f.shape[k] > 0)
    && f.raggedDim == (if f.collate.PadLongest? || f.collate.PackedSequence? then Some(0) else None)
    && (f.collate.Generated? <==> !f.generated.NoGenerator?)
    && (f.collate.Generated? <==> f.source.Some?)
    && f.padBits < WORD
    && (!f.collate.PadLongest? ==> f.padBits == 0)
  }

  function FindField(fields: seq<Field>, name: Data): (r: Option<nat>)
    ensures r.Some? ==> r.value < |fields| && fields[r.value].name == name
    ensures r.None? ==> forall i :: 0 <= i < |fields| ==> fields[i].name != name
  {
    if fields == [] then None
    else if fields[|fields| - 1].name == name then Some(|fields| - 1)
    else FindField(fields[..|fields| - 1], name)
  }

  ghost predicate UniqueNames(fields: seq<Field>) {
    forall i, j :: 0 <= i < j < |fields| ==> fields[i].name != fields[j].name
  }

  /** What `_normalize_fields` guarantees of a schema. */
  ghost predicate SchemaOk(fields: seq<Field>) {
    && 0 < |fields| <= MAX_FIELDS
    && (forall i :: 0 <= i < |fields| ==> FieldOk(fields[i]))
    && UniqueNames(fields)
    && (forall i :: 0 <= i < |fields| && fields[i].source.Some? ==> FindField(fields, fields[i].source.value).Some?)
  }

  // ---------- flags ----------

  function RaggedCode(f: Field): nat {
    if f.raggedDim.None? then 0 else f.raggedDim.value + 1
  }

  function SourceCode(f: Field, fields: seq<Field>): nat {
    if f.source.None? then 0
    else match FindField(fields, f.source.value) case Some(i) => i + 1 case None => 0
  }

  /** `_field_flags`: `collate | generated << 8 | ragged << 16 | source << 24`. */
  function FieldFlags(f: Field, fields: seq<Field>): nat {
    BitOr(BitOr(BitOr(f.collate.Code(), f.generated.Code() * 0x100), RaggedCode(f) * 0x1_0000),
          SourceCode(f, fields) * 0x100_0000)
  }

  lemma {:induction false} OrIsSum(c: nat, g: nat, r: nat, n: nat)
    requires c < 0x100 && g < 0x100 && r < 0x100
    ensures BitOr(BitOr(BitOr(c, g * 0x100), r * 0x1_0000), n * 0x100_0000) ==
            c + g * 0x100 + r * 0x1_0000 + n * 0x100_0000
  {
    assert Pow2(8) == 0x100;
    Pow2Add(8, 8);
    Pow2Add(16, 8);
    DisjointOr(c, 8, g);
    DisjointOr(c + g * 0x100, 16, r);
    DisjointOr(c + g * 0x100 + r * 0x1_0000, 24, n);
  }

  /** The four parts of the flags can be read back, and the whole fits the 64-bit slot. */
  lemma {:induction false} FlagsUnpack(f: Field, fields: seq<Field>)
    requires FieldOk(f) && |fields| <= MAX_FIELDS
    ensures FieldFlags(f, fields) < WORD
    ensures FieldFlags(f, fields) % 0x100 == f.collate.Code()
    ensures FieldFlags(f, fields) / 0x100 % 0x100 == f.generated.Code()
    ensures FieldFlags(f, fields) / 0x1_0000 % 0x100 == RaggedCode(f)
    ensures FieldFlags(f, fields) / 0x100_0000 == SourceCode(f, fields)
  {
    OrIsSum(f.collate.Code(), f.generated.Code(), RaggedCode(f), SourceCode(f, fields));
    UnpackSum(f.collate.Code(), f.generated.Code(), RaggedCode(f), SourceCode(f, fields));
  }

  lemma {:induction false} UnpackSum(c: nat, g: nat, r: nat, n: nat)
    requires c < 0x100 && g < 0x100 && r < 0x100 && n <= MAX_FIELDS
    ensures var sum := c + g * 0x100 + r * 0x1_0000 + n * 0x100_0000;
            sum < WORD && sum % 0x100 == c && sum / 0x100 % 0x100 == g && sum / 0x1_0000 % 0x100 == r
              && sum / 0x100_0000 == n
  {
  }

  // ---------- the encoded schema ----------

  function PadShape(shape: seq<I64>): (dims: seq<I64>)
    requires |shape| <= MAX_DIMS
    ensures |dims| == MAX_DIMS && shape <= dims
  {
    shape + seq(MAX_DIMS - |shape|, i => 0)
  }

  /** `struct.pack("<8q", ...)`, for any number of values. */
  function PackSigned(dims: seq<I64>): (s: Data)
    ensures |s| == 8 * |dims|
  {
    if dims == [] then [] else PackSigned(dims[..|dims| - 1]) + LESigned(dims[|dims| - 1])
  }

  lemma {:induction false} PackSignedAt(dims: seq<I64>, k: nat)
    requires k < |dims|
    ensures At(PackSigned(dims), 8 * k, LESigned(dims[k]))
  {
    var n := |dims| - 1;
    if k < n {
      PackSignedAt(dims[..n], k);
      AtExtend(PackSigned(dims[..n]), LESigned(dims[n]), 8 * k, LESigned(dims[k]));
    } else {
      AtAppend(PackSigned(dims[..n]), LESigned(dims[n]));
    }
  }

  /** Where the parts of one field descriptor stand. */
  ghost predicate FieldLayout(s: Data, base: nat, f: Field, flags: nat)
    requires |f.name| <= FIELD_NAME_MAX && |f.shape| <= MAX_DIMS
  {
    && At(s, base, f.name + Zeros(FIELD_NAME_MAX - |f.name|))
    && At(s, base + 64, LE(f.dtype.Code(), 4))
    && At(s, base + 68, LE(|f.shape|, 4))
    && At(s, base + 72, PackSigned(PadShape(f.shape)))
    && At(s, base + 136, LE(flags, 8))
    && At(s, base + 144, LE(f.padBits, 8))
    && At(s, base + 152, Zeros(8))
  }

  /** One 160-byte descriptor, filled in place over zeros. */
  method EncodeField(f: Field, flags: nat) returns (desc: Data)
    requires FieldOk(f)
    ensures |desc| == FIELD_DESC_SIZE && FieldLayout(desc, 0, f, flags)
  {
    desc := Zeros(FIELD_DESC_SIZE);
    assert At(desc, 152, Zeros(8));
    PackIntoLayout(desc, 0, f.name);
    desc := PackInto(desc, 0, f.name);
    assert At(desc, 0, f.name + Zeros(FIELD_NAME_MAX - |f.name|));
    PackIntoLayout(desc, 64, LE(f.dtype.Code(), 4));
    desc := PackInto(desc, 64, LE(f.dtype.Code(), 4));
    PackIntoLayout(desc, 68, LE(|f.shape|, 4));
    desc := PackInto(desc, 68, LE(|f.shape|, 4));
    PackIntoLayout(desc, 72, PackSigned(PadShape(f.shape)));
    desc := PackInto(desc, 72, PackSigned(PadShape(f.shape)));
    PackIntoLayout(desc, 136, LE(flags, 8));
    desc := PackInto(desc, 136, LE(flags, 8));
    PackIntoLayout(desc, 144, LE(f.padBits, 8));
    desc := PackInto(desc, 144, LE(f.padBits, 8));
  }

  ghost predicate SchemaLayout(s: Data, off: nat, fields: seq<Field>)
    requires SchemaOk(fields)
  {
    forall i :: 0 <= i < |fields| ==> FieldLayoutOf(s, off, fields, i)
  }

  ghost predicate FieldLayoutOf(s: Data, off: nat, fields: seq<Field>, i: nat)
    requires SchemaOk(fields) && i < |fields|
  {
    assert FieldOk(fields[i]);
    FieldLayout(s, off + FieldBase(i), fields[i], FieldFlags(fields[i], fields))
  }

  lemma {:induction false} LayoutExtends(out: Data, desc: Data, off: nat, fields: seq<Field>, i: nat)
    requires SchemaOk(fields) && i < |fields| && FieldLayoutOf(out, off, fields, i)
    ensures FieldLayoutOf(out + desc, off, fields, i)
  {
  }

  /** A descriptor keeps its layout inside a larger file. */
  lemma {:induction false} FieldLayoutMoves(s: Data, off: nat, p: Data, base: nat, f: Field, flags: nat)
    requires FieldOk(f) && At(s, off, p) && FieldLayout(p, base, f, flags)
    ensures FieldLayout(s, off + base, f, flags)
  {
    assert FieldLayout(s, off + base, f, flags) by { NestedParts(s, off, p, base, f, flags); }
  }

  lemma {:induction false} NestedParts(s: Data, off: nat, p: Data, base: nat, f: Field, flags: nat)
    requires |f.name| <= FIELD_NAME_MAX && |f.shape| <= MAX_DIMS
    requires At(s, off, p) && FieldLayout(p, base, f, flags)
    ensures FieldLayout(s, off + base, f, flags)
  {
    AtNested(s, off, p, base, f.name + Zeros(FIELD_NAME_MAX - |f.name|));
    AtNested(s, off, p, base + 64, LE(f.dtype.Code(), 4));
    AtNested(s, off, p, base + 68, LE(|f.shape|, 4));
    AtNested(s, off, p, base + 72, PackSigned(PadShape(f.shape)));
    AtNested(s, off, p, base + 136, LE(flags, 8));
    AtNested(s, off, p, base + 144, LE(f.padBits, 8));
    AtNested(s, off, p, base + 152, Zeros(8));
  }

  lemma {:induction false} SchemaMoves(s: Data, off: nat, p: Data, fields: seq<Field>)
    requires SchemaOk(fields) && At(s, off, p) && SchemaLayout(p, 0, fields)
    ensures SchemaLayout(s, off, fields)
  {
    forall i | 0 <= i < |fields|
      ensures FieldLayoutOf(s, off, fields, i)
    {
      assert FieldOk(fields[i]) && FieldLayoutOf(p, 0, fields, i);
      FieldLayoutMoves(s, off, p, FieldBase(i), fields[i], FieldFlags(fields[i], fields));
    }
  }

  /** The first `n` descriptors. */
  ghost predicate SchemaUpTo(out: Data, fields: seq<Field>, n: nat)
    requires SchemaOk(fields) && n <= |fields|
  {
    |out| == FieldBase(n) && forall j :: 0 <= j < n ==> FieldLayoutOf(out, 0, fields, j)
  }

  lemma {:induction false} SchemaGrows(out: Data, fields: seq<Field>, i: nat, desc: Data)
    requires SchemaOk(fields) && i < |fields| && SchemaUpTo(out, fields, i)
    requires |desc| == FIELD_DESC_SIZE && FieldOk(fields[i])
        && FieldLayout(desc, 0, fields[i], FieldFlags(fields[i], fields))
    ensures SchemaUpTo(out + desc, fields, i + 1)
  {
    LastLayout(out, fields, i, desc);
    forall j | 0 <= j < i
      ensures FieldLayoutOf(out + desc, 0, fields, j)
    {
      LayoutExtends(out, desc, 0, fields, j);
    }
  }

  lemma {:induction false} LastLayout(out: Data, fields: seq<Field>, i: nat, desc: Data)
    requires SchemaOk(fields) && i < |fields| && |out| == FieldBase(i)
    requires FieldOk(fields[i]) && FieldLayout(desc, 0, fields[i], FieldFlags(fields[i], fields))
    ensures FieldLayoutOf(out + desc, 0, fields, i)
  {
    AtAppend(out, desc);
    FieldLayoutMoves(out + desc, |out|, desc, 0, fields[i], FieldFlags(fields[i], fields));
  }

  /** `_encode_schema`. */
  method EncodeSchema(fields: seq<Field>) returns (out: Data)
    requires SchemaOk(fields)
    ensures |out| == FieldBase(|fields|) && SchemaLayout(out, 0, fields)
  {
    out := [];
    for i := 0 to |fields|
      invariant SchemaUpTo(out, fields, i)
    {
      assert FieldOk(fields[i]);
      var desc := EncodeField(fields[i], FieldFlags(fields[i], fields));
      SchemaGrows(out, fields, i, desc);
      out := out + desc;
    }
  }

  // ---------- the reader ----------

  /** A field as the reader knows it; `dtype` is the stored code. */
  datatype ReadField = ReadField(name: Data, dtype: nat, rank: nat, shape: seq<I64>, flags: nat)

  /** `split(b"\0", 1)[0]`. */
  function UpToNul(s: Data): Data {
    if s == [] || s[0] == 0 then [] else [s[0]] + UpToNul(s[1..])
  }

  /** The first `n` of the eight stored dimensions. */
  function Dims(s: Data, off: nat, n: nat): (dims: seq<I64>)
    requires off + 8 * n <= |s|
    ensures |dims| == n
  {
    if n == 0 then [] else Dims(s, off, n - 1) + [I(s, off + 8 * (n - 1))]
  }

  /** One descriptor as `read_shard_header` unpacks it; a short read raises. */
  function ReadFieldAt(s: Data, off: nat): Option<ReadField> {
    if off + FIELD_DESC_SIZE > |s| then None
    else
      var rank := U(s, off + 68, 4);
      Some(ReadField(UpToNul(s[off..off + 64]), U(s, off + 64, 4), rank,
                     Dims(s, off + 72, if rank < MAX_DIMS then rank else MAX_DIMS), U(s, off + 136, 8)))
  }

  function FieldResults(s: Data, off: nat, n: nat): (r: seq<Option<ReadField>>)
    ensures |r| == n && forall i :: 0 <= i < n ==> r[i] == ReadFieldAt(s, off + FieldBase(i))
  {
    seq(n, i requires 0 <= i => ReadFieldAt(s, off + FieldBase(i)))
  }

  /** `n` descriptors in a row. */
  function ReadFields(s: Data, off: nat, n: nat): Option<seq<ReadField>> {
    Collect(FieldResults(s, off, n))
  }

  function AsRead(f: Field, fields: seq<Field>): ReadField {
    ReadField(f.name, f.dtype.Code(), |f.shape|, f.shape, FieldFlags(f, fields))
  }

  predicate NulFree(s: Data) {
    forall i :: 0 <= i < |s| ==> s[i] != 0
  }

  /** A zero-padded name is read back exactly when it contains no NUL. */
  lemma {:induction false} NameRoundTrip(name: Data, pad: Data)
    requires pad != [] && pad[0] == 0
    ensures UpToNul(name + pad) == name <==> NulFree(name)
    ensures |UpToNul(name + pad)| <= |name|
  {
    if name == [] {
      assert name + pad == pad;
    } else {
      assert (name + pad)[1..] == name[1..] + pad;
      NameRoundTrip(name[1..], pad);
      if name[0] != 0 {
        assert name == [name[0]] + name[1..];
        assert NulFree(name) <==> NulFree(name[1..]) by {
          assert forall i :: 0 <= i < |name| - 1 ==> name[1..][i] == name[i + 1];
          assert forall i :: 1 <= i < |name| ==> name[i] == name[1..][i - 1];
        }
      }
    }
  }

  lemma {:induction false} DimsRoundTrip(s: Data, off: nat, dims: seq<I64>, n: nat)
    requires At(s, off, PackSigned(dims)) && n <= |dims|
    ensures off + 8 * n <= |s| && Dims(s, off, n) == dims[..n]
  {
    if n > 0 {
      DimsRoundTrip(s, off, dims, n - 1);
      PackSignedAt(dims, n - 1);
      AtNested(s, off, PackSigned(dims), 8 * (n - 1), LESigned(dims[n - 1]));
      ReadBackSigned(s, off + 8 * (n - 1), dims[n - 1]);
    }
  }

  lemma {:induction false} FieldRoundTrip(s: Data, off: nat, f: Field, fields: seq<Field>)
    requires FieldOk(f) && |fields| <= MAX_FIELDS && FieldLayout(s, off, f, FieldFlags(f, fields)) && NulFree(f.name)
    ensures ReadFieldAt(s, off) == Some(AsRead(f, fields))
  {
    Widths();
    FlagsUnpack(f, fields);
    ReadBack(s, off + 64, f.dtype.Code(), 4);
    ReadBack(s, off + 68, |f.shape|, 4);
    ReadBack(s, off + 136, FieldFlags(f, fields), 8);
    DimsRoundTrip(s, off + 72, PadShape(f.shape), |f.shape|);
    var pad := Zeros(FIELD_NAME_MAX - |f.name|);
    AtSlice(s, off, f.name + pad);
    NameRoundTrip(f.name, pad);
  }

  /** The schema as the reader should see it. */
  function AllAsRead(fields: seq<Field>): (r: seq<ReadField>)
    ensures |r| == |fields| && forall i :: 0 <= i < |r| ==> r[i] == AsRead(fields[i], fields)
  {
    seq(|fields|, i requires 0 <= i < |fields| => AsRead(fields[i], fields))
  }

  lemma {:induction false} FieldAtRoundTrip(s: Data, off: nat, fields: seq<Field>, i: nat)
    requires SchemaOk(fields) && SchemaLayout(s, off, fields) && i < |fields| && NulFree(fields[i].name)
    ensures ReadFieldAt(s, off + FieldBase(i)) == Some(AsRead(fields[i], fields))
  {
    assert FieldLayoutOf(s, off, fields, i) && FieldOk(fields[i]);
    FieldRoundTrip(s, off + FieldBase(i), fields[i], fields);
  }

  /** The reader recovers every field of the schema. */
  lemma {:induction false} SchemaRoundTrip(s: Data, off: nat, fields: seq<Field>)
    requires SchemaOk(fields) && SchemaLayout(s, off, fields)
    requires forall i :: 0 <= i < |fields| ==> NulFree(fields[i].name)
    ensures ReadFields(s, off, |fields|) == Some(AllAsRead(fields))
  {
    forall i | 0 <= i < |fields|
      ensures ReadFieldAt(s, off + FieldBase(i)) == Some(AsRead(fields[i], fields))
    {
      FieldAtRoundTrip(s, off, fields, i);
    }
    CollectIs(FieldResults(s, off, |fields|), AllAsRead(fields));
  }
}
