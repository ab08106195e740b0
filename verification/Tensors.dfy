/** Strided views over an allocation (`tensor_make_contiguous_strides`, `tensor_slice`, ...). */
module Tensors {
  import opened Arith
  import opened Seqs

  function Product(sizes: seq<int>): int {
    if sizes == [] then 1 else sizes[0] * Product(sizes[1..])
  }

  ghost predicate Positive(sizes: seq<int>) {
    forall k :: 0 <= k < |sizes| ==> sizes[k] > 0
  }

  /** Row-major strides in elements: the product of the sizes behind each dimension. */
  function Strides(sizes: seq<int>): (s: seq<int>)
    ensures |s| == |sizes|
  {
    if sizes == [] then [] else [Product(sizes[1..])] + Strides(sizes[1..])
  }

  /** Element offset of an index. */
  function Dot(idx: seq<int>, strides: seq<int>): int
    requires |idx| == |strides|
  {
    if idx == [] then 0 else idx[0] * strides[0] + Dot(idx[1..], strides[1..])
  }

  ghost predicate InRange(idx: seq<int>, sizes: seq<int>) {
    |idx| == |sizes| && forall k :: 0 <= k < |idx| ==> 0 <= idx[k] < sizes[k]
  }

  lemma {:induction false} ProductPositive(sizes: seq<int>)
    requires Positive(sizes)
    ensures Product(sizes) > 0
  {
    if sizes != [] {
      ProductPositive(sizes[1..]);
      MulPositive(sizes[0], Product(sizes[1..]));
    }
  }

  lemma {:induction false} MulPositive(x: int, y: int)
    requires x > 0 && y > 0
    ensures x * y > 0
  {
  }

  /** `i * p + r` with `r` below `p` stays below `n * p`. */
  lemma {:induction false} RadixBound(i: int, n: int, r: int, p: int)
    requires 0 <= i < n && 0 <= r < p
    ensures 0 <= i * p + r < n * p
  {
    MulLe(i, n - 1, p);
    MulLe(0, i, p);
    assert (n - 1) * p + p == n * p;
  }

  /** Offsets of a contiguous tensor run through the allocation without leaving it. */
  lemma {:induction false} OffsetBound(idx: seq<int>, sizes: seq<int>)
    requires InRange(idx, sizes)
    ensures 0 <= Dot(idx, Strides(sizes)) < Product(sizes)
  {
    if idx != [] {
      OffsetBound(idx[1..], sizes[1..]);
      assert Strides(sizes)[1..] == Strides(sizes[1..]);
      RadixBound(idx[0], sizes[0], Dot(idx[1..], Strides(sizes[1..])), Product(sizes[1..]));
    }
  }

  /** Different indices have different offsets. */
  lemma {:induction false} OffsetInjective(a: seq<int>, b: seq<int>, sizes: seq<int>)
    requires InRange(a, sizes) && InRange(b, sizes) && Dot(a, Strides(sizes)) == Dot(b, Strides(sizes))
    ensures a == b
  {
    if a != [] {
      var p, ra, rb := Product(sizes[1..]), Dot(a[1..], Strides(sizes[1..])), Dot(b[1..], Strides(sizes[1..]));
      OffsetBound(a[1..], sizes[1..]);
      OffsetBound(b[1..], sizes[1..]);
      assert Strides(sizes)[1..] == Strides(sizes[1..]);
      DigitsEqual(a[0], ra, b[0], rb, p);
      OffsetInjective(a[1..], b[1..], sizes[1..]);
      assert a == [a[0]] + a[1..] && b == [b[0]] + b[1..];
    }
  }

  lemma {:induction false} DigitsEqual(i: nat, r: nat, j: nat, s: nat, p: nat)
    requires r < p && s < p && i * p + r == j * p + s
    ensures i == j && r == s
  {
    DivUnique(i * p + r, p, i, r);
    DivUnique(j * p + s, p, j, s);
  }

  // ---------- the loops ----------

  /** `tensor_numel`; `None` where the source aborts: a size that is not positive, or a product
      beyond 63 bits. */
  method Numel(sizes: seq<int>) returns (n: Option<int>)
    ensures n.Some? <==> Positive(sizes) && PrefixesFit(sizes)
    ensures n.Some? ==> n.value == Product(sizes)
  {
    var total := 1;
    for i := 0 to |sizes|
      invariant 0 < total <= INT64_MAX && total == PrefixProduct(sizes, i)
      invariant forall k :: 0 <= k < i ==> sizes[k] > 0
      invariant forall k :: 0 <= k <= i ==> PrefixProduct(sizes, k) <= INT64_MAX
    {
      if sizes[i] <= 0 || total > INT64_MAX / sizes[i] {
        if sizes[i] > 0 {
          QuotientTest(total, sizes[i]);
          assert PrefixProduct(sizes, i + 1) > INT64_MAX;
        }
        return None;
      }
      QuotientTest(total, sizes[i]);
      MulPositive(total, sizes[i]);
      total := total * sizes[i];
    }
    PrefixIsProduct(sizes, |sizes|);
    assert sizes[..|sizes|] == sizes;
    n := Some(total);
  }

  const INT64_MAX: int := 0x7FFF_FFFF_FFFF_FFFF

  function PrefixProduct(sizes: seq<int>, n: nat): int
    requires n <= |sizes|
  {
    if n == 0 then 1 else PrefixProduct(sizes, n - 1) * sizes[n - 1]
  }

  ghost predicate PrefixesFit(sizes: seq<int>) {
    forall k :: 0 <= k <= |sizes| ==> PrefixProduct(sizes, k) <= INT64_MAX
  }

  lemma {:induction false} QuotientTest(total: int, size: int)
    requires total > 0 && size > 0
    ensures total <= INT64_MAX / size <==> total * size <= INT64_MAX
  {
    DivMod(INT64_MAX, size);
    var q := INT64_MAX / size;
    if total <= q {
      MulLe(total, q, size);
    } else {
      MulLe(q + 1, total, size);
      assert (q + 1) * size == q * size + size;
    }
  }

  lemma {:induction false} PrefixIsProduct(sizes: seq<int>, n: nat)
    requires n <= |sizes|
    ensures PrefixProduct(sizes, n) == Product(sizes[..n])
  {
    if n > 0 {
      PrefixIsProduct(sizes, n - 1);
      ProductSnoc(sizes[..n - 1], sizes[n - 1]);
      assert sizes[..n] == sizes[..n - 1] + [sizes[n - 1]];
    }
  }

  lemma {:induction false} ProductSnoc(sizes: seq<int>, x: int)
    ensures Product(sizes + [x]) == Product(sizes) * x
  {
    if sizes == [] {
      assert [] + [x] == [x];
      assert Product([x]) == x * Product([]);
    } else {
      ProductSnoc(sizes[1..], x);
      assert (sizes + [x])[1..] == sizes[1..] + [x];
      assert sizes[0] * (Product(sizes[1..]) * x) == sizes[0] * Product(sizes[1..]) * x;
    }
  }

  /** `tensor_make_contiguous_strides`: the loop runs from the last dimension to the first. */
  method MakeContiguousStrides(sizes: seq<int>) returns (strides: array<int>)
    ensures fresh(strides) && strides[..] == Strides(sizes)
  {
    strides := new int[|sizes|];
    var i, stride := |sizes|, 1;
    assert sizes[|sizes|..] == [];
    while i > 0
      invariant 0 <= i <= |sizes|
      invariant stride == Product(sizes[i..]) && strides[i..] == Strides(sizes[i..])
    {
      assert sizes[i - 1..][1..] == sizes[i..];
      i := i - 1;
      strides[i] := stride;
      assert strides[i..] == [stride] + strides[i + 1..];
      stride := sizes[i] * stride;
    }
    assert sizes[0..] == sizes && strides[0..] == strides[..];
  }

  /** `tensor_is_contiguous`. */
  method IsContiguous(sizes: seq<int>, strides: seq<int>) returns (c: bool)
    requires |sizes| == |strides|
    ensures c <==> strides == Strides(sizes)
  {
    var i, stride := |sizes|, 1;
    assert sizes[|sizes|..] == [] && strides[|sizes|..] == [];
    while i > 0
      invariant 0 <= i <= |sizes|
      invariant stride == Product(sizes[i..]) && strides[i..] == Strides(sizes[i..])
    {
      assert sizes[i - 1..][1..] == sizes[i..];
      i := i - 1;
      if strides[i] != stride {
        StridesAt(sizes, i);
        return false;
      }
      assert strides[i..] == [stride] + strides[i + 1..];
      stride := sizes[i] * stride;
    }
    assert sizes[0..] == sizes && strides[0..] == strides;
    c := true;
  }

  lemma {:induction false} StridesAt(sizes: seq<int>, i: nat)
    requires i < |sizes|
    ensures Strides(sizes)[i] == Product(sizes[i + 1..])
  {
    if i > 0 {
      StridesAt(sizes[1..], i - 1);
      assert sizes[1..][i..] == sizes[i + 1..];
    }
  }

  // ---------- views ----------

  /** A tensor descriptor: where its allocation is and how it views it. */
  datatype Tensor = Tensor(elem: nat, sizes: seq<int>, strides: seq<int>, allocation: nat, allocationNbytes: nat,
                           viewOffset: int, isView: bool)

  /** A fresh contiguous tensor fills its allocation exactly. */
  ghost predicate IsBase(t: Tensor) {
    && t.elem > 0 && Positive(t.sizes) && t.strides == Strides(t.sizes)
    && t.allocationNbytes == Product(t.sizes) * t.elem && t.viewOffset == 0 && !t.isView
  }

  /** First byte of an element. */
  function Address(t: Tensor, idx: seq<int>): int
    requires |idx| == |t.strides|
  {
    t.allocation + t.viewOffset + Dot(idx, t.strides) * t.elem
  }

  /** One `tensor_slice`. */
  datatype Cut = Cut(dim: nat, start: int, len: int)

  /** What `tensor_slice` checks of its arguments. */
  ghost predicate CutOk(sizes: seq<int>, c: Cut) {
    c.dim < |sizes| && c.start >= 0 && c.len > 0 && c.start + c.len <= sizes[c.dim]
  }

  function Slice(t: Tensor, c: Cut): Tensor
    requires |t.strides| == |t.sizes| && CutOk(t.sizes, c)
  {
    t.(sizes := t.sizes[c.dim := c.len], viewOffset := t.viewOffset + c.start * t.strides[c.dim] * t.elem,
      isView := true)
  }

  /** The index in the tensor that was sliced. */
  function Shifted(idx: seq<int>, c: Cut): seq<int>
    requires c.dim < |idx|
  {
    idx[c.dim := idx[c.dim] + c.start]
  }

  lemma {:induction false} DotShift(idx: seq<int>, strides: seq<int>, d: nat, x: int)
    requires |idx| == |strides| && d < |idx|
    ensures Dot(idx[d := idx[d] + x], strides) == Dot(idx, strides) + x * strides[d]
  {
    if d == 0 {
      assert idx[0 := idx[0] + x][1..] == idx[1..];
      assert (idx[0] + x) * strides[0] == idx[0] * strides[0] + x * strides[0];
    } else {
      assert idx[d := idx[d] + x][1..] == idx[1..][d - 1 := idx[1..][d - 1] + x];
      DotShift(idx[1..], strides[1..], d - 1, x);
    }
  }

  /** An element of a slice is the element of the tensor at the shifted index. */
  lemma {:induction false} SliceAddress(t: Tensor, c: Cut, idx: seq<int>)
    requires |t.strides| == |t.sizes| && CutOk(t.sizes, c) && InRange(idx, Slice(t, c).sizes)
    ensures InRange(Shifted(idx, c), t.sizes)
    ensures Address(Slice(t, c), idx) == Address(t, Shifted(idx, c))
  {
    var sizes := t.sizes[c.dim := c.len];
    assert idx[c.dim] < sizes[c.dim];
    DotShift(idx, t.strides, c.dim, c.start);
    var d, m := Dot(idx, t.strides), c.start * t.strides[c.dim];
    assert (d + m) * t.elem == d * t.elem + m * t.elem;
  }

  // ---------- chains of slices ----------

  ghost predicate CutsOk(sizes: seq<int>, cuts: seq<Cut>)
    decreases |cuts|
  {
    cuts != [] ==> CutOk(sizes, cuts[0]) && CutsOk(sizes[cuts[0].dim := cuts[0].len], cuts[1..])
  }

  function SliceAll(t: Tensor, cuts: seq<Cut>): (v: Tensor)
    requires |t.strides| == |t.sizes| && CutsOk(t.sizes, cuts)
    ensures v.strides == t.strides && |v.sizes| == |t.sizes| && v.elem == t.elem
    ensures v.allocation == t.allocation && v.allocationNbytes == t.allocationNbytes
    decreases |cuts|
  {
    if cuts == [] then t else SliceAll(Slice(t, cuts[0]), cuts[1..])
  }

  /** The sum of all starts given for dimension `d`. */
  function StartSum(cuts: seq<Cut>, d: nat): int {
    if cuts == [] then 0 else (if cuts[0].dim == d then cuts[0].start else 0) + StartSum(cuts[1..], d)
  }

  /** An index moved by the summed starts. */
  function Moved(idx: seq<int>, cuts: seq<Cut>): (r: seq<int>)
    ensures |r| == |idx| && forall d :: 0 <= d < |idx| ==> r[d] == idx[d] + StartSum(cuts, d)
  {
    seq(|idx|, d requires 0 <= d < |idx| => idx[d] + StartSum(cuts, d))
  }

  /** For any chain of slices, an element of the view is the element of the base tensor at the index
      moved by the summed starts. */
  lemma {:induction false} ChainAddress(t: Tensor, cuts: seq<Cut>, idx: seq<int>)
    requires |t.strides| == |t.sizes| && CutsOk(t.sizes, cuts) && InRange(idx, SliceAll(t, cuts).sizes)
    ensures InRange(Moved(idx, cuts), t.sizes)
    ensures Address(SliceAll(t, cuts), idx) == Address(t, Moved(idx, cuts))
    decreases |cuts|
  {
    if cuts == [] {
      assert Moved(idx, cuts) == idx;
    } else {
      ChainAddress(Slice(t, cuts[0]), cuts[1..], idx);
      SliceAddress(t, cuts[0], Moved(idx, cuts[1..]));
      assert Moved(idx, cuts) == Shifted(Moved(idx, cuts[1..]), cuts[0]);
    }
  }

  /** Different elements of a view never overlap. */
  lemma {:induction false} ViewInjective(t: Tensor, cuts: seq<Cut>, a: seq<int>, b: seq<int>)
    requires IsBase(t) && CutsOk(t.sizes, cuts)
    requires InRange(a, SliceAll(t, cuts).sizes) && InRange(b, SliceAll(t, cuts).sizes) && a != b
    ensures var v := SliceAll(t, cuts);
            Address(v, a) + v.elem <= Address(v, b) || Address(v, b) + v.elem <= Address(v, a)
  {
    ChainAddress(t, cuts, a);
    ChainAddress(t, cuts, b);
    MovedDiffer(a, b, cuts);
    var x, y := Moved(a, cuts), Moved(b, cuts);
    if Dot(x, t.strides) == Dot(y, t.strides) {
      OffsetInjective(x, y, t.sizes);
    }
    ElementsApart(Dot(x, t.strides), Dot(y, t.strides), t.elem);
  }

  lemma {:induction false} MovedDiffer(a: seq<int>, b: seq<int>, cuts: seq<Cut>)
    requires |a| == |b| && a != b
    ensures Moved(a, cuts) != Moved(b, cuts)
  {
    var d :| 0 <= d < |a| && a[d] != b[d];
    assert Moved(a, cuts)[d] != Moved(b, cuts)[d];
  }

  lemma {:induction false} ElementsApart(i: int, j: int, elem: nat)
    requires i != j
    ensures i * elem + elem <= j * elem || j * elem + elem <= i * elem
  {
    if i < j {
      NextElement(i, j, elem);
    } else {
      NextElement(j, i, elem);
    }
  }

  lemma {:induction false} NextElement(i: int, j: int, elem: nat)
    requires i < j
    ensures i * elem + elem <= j * elem
  {
    var d: nat := j - i - 1;
    MulLe(0, d, elem);
    assert j * elem == (i + 1 + d) * elem == i * elem + elem + d * elem;
  }

  /** Every byte of every element of a view lies in the base allocation. */
  lemma {:induction false} ViewInside(t: Tensor, cuts: seq<Cut>, idx: seq<int>)
    requires IsBase(t) && CutsOk(t.sizes, cuts) && InRange(idx, SliceAll(t, cuts).sizes)
    ensures var v := SliceAll(t, cuts);
            v.allocation <= Address(v, idx) && Address(v, idx) + v.elem <= v.allocation + v.allocationNbytes
  {
    ChainAddress(t, cuts, idx);
    OffsetBound(Moved(idx, cuts), t.sizes);
    MulLe(0, Dot(Moved(idx, cuts), t.strides), t.elem);
    NextElement(Dot(Moved(idx, cuts), t.strides), Product(t.sizes), t.elem);
  }

  // ---------- contiguity ----------

  ghost predicate SameBehindFirst(a: seq<int>, b: seq<int>) {
    |a| == |b| && forall k :: 1 <= k < |a| ==> a[k] == b[k]
  }

  lemma {:induction false} TailsGiveStrides(a: seq<int>, b: seq<int>)
    requires SameBehindFirst(a, b)
    ensures Strides(a) == Strides(b)
  {
    if a != [] {
      assert a[1..] == b[1..];
    }
  }

  lemma {:induction false} StridesGiveTails(a: seq<int>, b: seq<int>)
    requires Positive(a) && Positive(b) && |a| == |b| && Strides(a) == Strides(b)
    ensures SameBehindFirst(a, b)
  {
    if |a| > 1 {
      assert Strides(a)[1..] == Strides(a[1..]) && Strides(b)[1..] == Strides(b[1..]);
      StridesGiveTails(a[1..], b[1..]);
      StridesAt(a, 0);
      StridesAt(b, 0);
      StridesAt(a, 1);
      StridesAt(b, 1);
      ProductPositive(a[2..]);
      SecondSize(a, b);
      forall k | 1 <= k < |a|
        ensures a[k] == b[k]
      {
        if k > 1 {
          assert a[1..][k - 1] == b[1..][k - 1];
        }
      }
    }
  }

  lemma {:induction false} SecondSize(a: seq<int>, b: seq<int>)
    requires |a| == |b| > 1 && Product(a[1..]) == Product(b[1..]) && Product(a[2..]) == Product(b[2..]) > 0
    ensures a[1] == b[1]
  {
    assert a[1..][1..] == a[2..] && b[1..][1..] == b[2..];
    Cancel(a[1], b[1], Product(a[2..]));
  }

  /** Strides are determined by all sizes but the first, and determine them. */
  lemma {:induction false} SameStrides(a: seq<int>, b: seq<int>)
    requires Positive(a) && Positive(b) && |a| == |b|
    ensures Strides(a) == Strides(b) <==> SameBehindFirst(a, b)
  {
    if Strides(a) == Strides(b) {
      StridesGiveTails(a, b);
    } else if SameBehindFirst(a, b) {
      TailsGiveStrides(a, b);
    }
  }

  lemma {:induction false} Cancel(x: int, y: int, p: int)
    requires p > 0 && x * p == y * p
    ensures x == y
  {
    SmallMultiple(x - y, p);
  }

  lemma {:induction false} CutsPositive(t: Tensor, cuts: seq<Cut>)
    requires |t.strides| == |t.sizes| && Positive(t.sizes) && CutsOk(t.sizes, cuts)
    ensures Positive(SliceAll(t, cuts).sizes)
    decreases |cuts|
  {
    if cuts != [] {
      CutsPositive(Slice(t, cuts[0]), cuts[1..]);
    }
  }

  /** A chain of slices of a contiguous tensor is contiguous exactly when every dimension but the first
      keeps its full extent. */
  lemma {:induction false} ChainContiguous(t: Tensor, cuts: seq<Cut>)
    requires IsBase(t) && CutsOk(t.sizes, cuts)
    ensures var v := SliceAll(t, cuts);
            v.strides == Strides(v.sizes) <==> forall k :: 1 <= k < |t.sizes| ==> v.sizes[k] == t.sizes[k]
  {
    CutsPositive(t, cuts);
    SameStrides(t.sizes, SliceAll(t, cuts).sizes);
  }

  /** One slice: contiguous exactly when it cuts dimension 0 or keeps everything. */
  lemma {:induction false} SliceContiguous(t: Tensor, c: Cut)
    requires IsBase(t) && CutOk(t.sizes, c)
    ensures var v := Slice(t, c); v.strides == Strides(v.sizes) <==> c.dim == 0 || c.len == t.sizes[c.dim]
  {
    assert SliceAll(t, [c]) == Slice(t, c);
    ChainContiguous(t, [c]);
  }

  // ---------- the logical span ----------

  /** The largest element offset of a view. */
  function LastOffset(sizes: seq<int>, strides: seq<int>): int
    requires |sizes| == |strides|
  {
    if sizes == [] then 0 else (sizes[0] - 1) * strides[0] + LastOffset(sizes[1..], strides[1..])
  }

  /** `tensor_logical_byte_span_from_allocation`. */
  function LogicalSpan(t: Tensor): int
    requires |t.sizes| == |t.strides|
  {
    t.viewOffset + LastOffset(t.sizes, t.strides) * t.elem + t.elem
  }

  function LastIndex(sizes: seq<int>): (idx: seq<int>)
    ensures |idx| == |sizes| && forall k :: 0 <= k < |idx| ==> idx[k] == sizes[k] - 1
  {
    seq(|sizes|, k requires 0 <= k < |sizes| => sizes[k] - 1)
  }

  lemma {:induction false} LastOffsetIsDot(sizes: seq<int>, strides: seq<int>)
    requires |sizes| == |strides|
    ensures LastOffset(sizes, strides) == Dot(LastIndex(sizes), strides)
  {
    if sizes != [] {
      LastOffsetIsDot(sizes[1..], strides[1..]);
      assert LastIndex(sizes)[1..] == LastIndex(sizes[1..]);
    }
  }

  /** The span check of `tensor_check_live` holds for every chain of slices: the span is the end of the
      view's last element. */
  lemma {:induction false} SpanCheckPasses(t: Tensor, cuts: seq<Cut>)
    requires IsBase(t) && CutsOk(t.sizes, cuts)
    ensures var v := SliceAll(t, cuts);
            && InRange(LastIndex(v.sizes), v.sizes)
            && v.allocation + LogicalSpan(v) == Address(v, LastIndex(v.sizes)) + v.elem
            && LogicalSpan(v) <= v.allocationNbytes
  {
    var v := SliceAll(t, cuts);
    CutsPositive(t, cuts);
    LastOffsetIsDot(v.sizes, v.strides);
    ViewInside(t, cuts, LastIndex(v.sizes));
  }
}
