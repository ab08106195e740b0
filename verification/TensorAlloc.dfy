/** Creating and slicing tensors in arenas (`tensor_empty`, `tensor_slice`, `tensor_check_live`), with the
    byte arithmetic of `size_t`. */
module TensorAlloc {
  import opened Arith
  import opened Seqs
  import opened Arenas
  import opened Tensors

  /** `sizeof` of the descriptor, which lives in an arena itself, with 64-bit pointers. */
  const HEADER_BYTES: nat := 152

  /** A descriptor with the generations it was made in. */
  datatype Handle = Handle(tensor: Tensor, headerGeneration: nat, storageGeneration: nat)

  // ---------- size_t ----------

  /** `tensor_logical_byte_span_from_allocation`: computed modulo 2^64. */
  function SpanBytes(t: Tensor): nat
    requires |t.sizes| == |t.strides|
  {
    LogicalSpan(t) % WORD
  }

  /** `tensor_slice`: the view offset is computed modulo 2^64. */
  function CodeSlice(t: Tensor, c: Cut): Tensor
    requires |t.strides| == |t.sizes| && CutOk(t.sizes, c)
  {
    var v := Slice(t, c);
    v.(viewOffset := v.viewOffset % WORD)
  }

  /** What `tensor_empty` leaves: the allocation holds the byte size modulo 2^64. */
  ghost predicate IsAllocated(t: Tensor) {
    && t.elem > 0 && Positive(t.sizes) && PrefixesFit(t.sizes) && t.strides == Strides(t.sizes)
    && t.allocationNbytes == Product(t.sizes) * t.elem % WORD && t.viewOffset == 0 && !t.isView
  }

  ghost predicate BytesFit(t: Tensor) { Product(t.sizes) * t.elem < WORD }

  /** Every byte of every element lies in the allocation. */
  ghost predicate ElementsInside(t: Tensor) {
    |t.strides| == |t.sizes| && forall idx :: InRange(idx, t.sizes) ==> ElementInside(t, idx)
  }

  ghost predicate ElementInside(t: Tensor, idx: seq<int>)
    requires |idx| == |t.strides|
  {
    t.allocation <= Address(t, idx) && Address(t, idx) + t.elem <= t.allocation + t.allocationNbytes
  }

  lemma {:induction false} WrapSmall(n: int)
    requires n >= 0
    ensures n % WORD <= n && (n % WORD == n <==> n < WORD)
  {
  }

  /** The span of a contiguous tensor is its whole byte size. */
  lemma {:induction false} WholeSpan(t: Tensor)
    requires t.elem > 0 && Positive(t.sizes) && t.strides == Strides(t.sizes) && t.viewOffset == 0
    ensures LogicalSpan(t) == Product(t.sizes) * t.elem > 0
    ensures InRange(LastIndex(t.sizes), t.sizes)
    ensures Address(t, LastIndex(t.sizes)) + t.elem == t.allocation + Product(t.sizes) * t.elem
  {
    LastIsProduct(t.sizes);
    LastOffsetIsDot(t.sizes, t.strides);
    ProductPositive(t.sizes);
    MulPositive(Product(t.sizes), t.elem);
    assert (Product(t.sizes) - 1) * t.elem + t.elem == Product(t.sizes) * t.elem;
  }

  lemma {:induction false} LastIsProduct(sizes: seq<int>)
    ensures LastOffset(sizes, Strides(sizes)) == Product(sizes) - 1
  {
    if sizes != [] {
      LastIsProduct(sizes[1..]);
      assert (sizes[0] - 1) * Product(sizes[1..]) + Product(sizes[1..]) == sizes[0] * Product(sizes[1..]);
    }
  }

  /** A new tensor has room for all its elements exactly when its byte size needs no more than 64 bits;
      the live check passes in either case. */
  lemma {:induction false} AllocationExact(t: Tensor)
    requires IsAllocated(t)
    ensures SpanBytes(t) == t.allocationNbytes
    ensures IsBase(t) <==> BytesFit(t)
    ensures ElementsInside(t) <==> BytesFit(t)
  {
    var n := Product(t.sizes) * t.elem;
    WholeSpan(t);
    WrapSmall(n);
    if BytesFit(t) {
      forall idx | InRange(idx, t.sizes)
        ensures ElementInside(t, idx)
      {
        ViewInside(t, [], idx);
      }
    } else {
      assert !ElementInside(t, LastIndex(t.sizes));
    }
  }

  // ---------- slices do not wrap where the allocation did not ----------

  lemma {:induction false} ChainOffset(t: Tensor, cuts: seq<Cut>)
    requires IsBase(t) && CutsOk(t.sizes, cuts)
    ensures 0 <= SliceAll(t, cuts).viewOffset < t.allocationNbytes
  {
    var v := SliceAll(t, cuts);
    var zero := seq(|v.sizes|, k => 0);
    CutsPositive(t, cuts);
    DotZero(zero, v.strides);
    ViewInside(t, cuts, zero);
  }

  lemma {:induction false} DotZero(idx: seq<int>, strides: seq<int>)
    requires |idx| == |strides| && forall k :: 0 <= k < |idx| ==> idx[k] == 0
    ensures Dot(idx, strides) == 0
  {
    if idx != [] {
      DotZero(idx[1..], strides[1..]);
    }
  }

  /** One more slice of a view of a tensor that fits: the code computes the exact offset and the live
      check passes. */
  lemma {:induction false} SliceIsExact(base: Tensor, cuts: seq<Cut>, c: Cut)
    requires IsBase(base) && BytesFit(base) && CutsOk(base.sizes, cuts) && CutOk(SliceAll(base, cuts).sizes, c)
    ensures CutsOk(base.sizes, cuts + [c]) && CodeSlice(SliceAll(base, cuts), c) == SliceAll(base, cuts + [c])
    ensures var v := SliceAll(base, cuts + [c]); SpanBytes(v) == LogicalSpan(v) <= v.allocationNbytes
  {
    OneMoreCut(base, cuts, c);
    ChainOffset(base, cuts + [c]);
    SpanCheckPasses(base, cuts + [c]);
    var v := SliceAll(base, cuts + [c]);
    LastIndexOffset(base, cuts + [c]);
  }

  lemma {:induction false} LastIndexOffset(t: Tensor, cuts: seq<Cut>)
    requires IsBase(t) && CutsOk(t.sizes, cuts)
    ensures LogicalSpan(SliceAll(t, cuts)) > 0
  {
    var v := SliceAll(t, cuts);
    SpanCheckPasses(t, cuts);
    ViewInside(t, cuts, LastIndex(v.sizes));
  }

  lemma {:induction false} OneMoreCut(t: Tensor, cuts: seq<Cut>, c: Cut)
    requires |t.strides| == |t.sizes| && CutsOk(t.sizes, cuts) && CutOk(SliceAll(t, cuts).sizes, c)
    ensures CutsOk(t.sizes, cuts + [c]) && SliceAll(t, cuts + [c]) == Slice(SliceAll(t, cuts), c)
    decreases |cuts|
  {
    if cuts == [] {
      assert cuts + [c] == [c] && [c][1..] == [];
    } else {
      OneMoreCut(Slice(t, cuts[0]), cuts[1..], c);
      assert (cuts + [c])[1..] == cuts[1..] + [c];
    }
  }

  // ---------- element offsets ----------

  /** What every descriptor keeps, so that the 63-bit checks of the span never fail: its element offsets
      are non-negative and fit. */
  ghost predicate OffsetsFit(t: Tensor) {
    && |t.sizes| == |t.strides| && Positive(t.sizes)
    && (forall k :: 0 <= k < |t.strides| ==> t.strides[k] >= 0)
    && LastOffset(t.sizes, t.strides) <= INT64_MAX
  }

  lemma {:induction false} AllocatedOffsetsFit(t: Tensor)
    requires IsAllocated(t)
    ensures OffsetsFit(t)
  {
    LastIsProduct(t.sizes);
    PrefixIsProduct(t.sizes, |t.sizes|);
    assert t.sizes[..|t.sizes|] == t.sizes;
    forall k | 0 <= k < |t.sizes|
      ensures t.strides[k] >= 0
    {
      StridesAt(t.sizes, k);
      ProductPositive(t.sizes[k + 1..]);
    }
  }

  lemma {:induction false} CutOffset(sizes: seq<int>, strides: seq<int>, d: nat, len: int)
    requires |sizes| == |strides| && d < |sizes| && 0 < len <= sizes[d]
    requires forall k :: 0 <= k < |strides| ==> strides[k] >= 0
    ensures LastOffset(sizes[d := len], strides) <= LastOffset(sizes, strides)
  {
    if d == 0 {
      assert sizes[0 := len][1..] == sizes[1..];
      MulLe(len - 1, sizes[0] - 1, strides[0]);
    } else {
      assert sizes[d := len][1..] == sizes[1..][d - 1 := len];
      CutOffset(sizes[1..], strides[1..], d - 1, len);
    }
  }

  lemma {:induction false} SliceOffsetsFit(t: Tensor, c: Cut)
    requires OffsetsFit(t) && CutOk(t.sizes, c)
    ensures OffsetsFit(CodeSlice(t, c))
  {
    CutOffset(t.sizes, t.strides, c.dim, c.len);
  }

  // ---------- allocation ----------

  /** The descriptor and its name: the state of the arena behind them, and where the descriptor is. */
  function HeaderPlan(base: nat, capacity: nat, st: State, nameLength: nat): Option<(State, Span)> {
    var (s1, header) := Alloc(base, capacity, st, HEADER_BYTES, 8);
    if !header.Granted? then None
    else
      var (s2, name) := Alloc(base, capacity, s1, nameLength + 1, 1);
      if name.Granted? then Some((s2, header.span)) else None
  }

  /** `arena_alloc_span`: `None` where the source aborts. */
  method AllocSpan(arena: Arena, nbytes: nat, align: nat) returns (r: Option<Span>)
    requires arena.Valid() && nbytes > 0 && (align == 8 || align == 1 || align == 64)
    modifies arena
    ensures arena.Valid()
    ensures var (next, status) := Alloc(arena.base, arena.capacity, old(arena.Model()), nbytes, align);
            arena.Model() == next && r == if status.Granted? then Some(status.span) else None
  {
    AlignsArePowers();
    var status := arena.TryAlloc(nbytes, align);
    r := if status.Granted? then Some(status.span) else None;
  }

  lemma {:induction false} AlignsArePowers()
    ensures BitAnd(1, 0) == 0 && BitAnd(8, 7) == 0 && BitAnd(64, 63) == 0
  {
    assert BitAnd(8, 7) == 2 * BitAnd(4, 3) && BitAnd(4, 3) == 2 * BitAnd(2, 1) && BitAnd(2, 1) == 2 * BitAnd(1, 0);
    assert BitAnd(64, 63) == 2 * BitAnd(32, 31) && BitAnd(32, 31) == 2 * BitAnd(16, 15)
        && BitAnd(16, 15) == 2 * BitAnd(8, 7);
  }

  /** The allocations that `tensor_empty` and `tensor_slice` begin with. */
  method AllocHeader(arena: Arena, nameLength: nat) returns (r: Option<Span>)
    requires arena.Valid()
    modifies arena
    ensures arena.Valid()
    ensures var plan := HeaderPlan(arena.base, arena.capacity, old(arena.Model()), nameLength);
            && r.Some? == plan.Some?
            && (r.Some? ==> r.value == plan.value.1 && arena.Model() == plan.value.0)
  {
    r := AllocSpan(arena, HEADER_BYTES, 8);
    if r.Some? {
      var name := AllocSpan(arena, nameLength + 1, 1);
      if name.None? {
        r := None;
      }
    }
  }

  lemma {:induction false} PlanKeeps(base: nat, capacity: nat, st: State, nameLength: nat)
    requires Sound(capacity, st) && HeaderPlan(base, capacity, st, nameLength).Some?
    ensures var (next, header) := HeaderPlan(base, capacity, st, nameLength).value;
            && Sound(capacity, next) && next.generation == st.generation == header.generation
            && st.offset <= header.offset && header.End() <= next.offset
  {
    AllocKeeps(base, capacity, st, HEADER_BYTES, 8);
    var s1 := Alloc(base, capacity, st, HEADER_BYTES, 8).0;
    AllocKeeps(base, capacity, s1, nameLength + 1, 1);
  }

  /** Where the storage of a new tensor goes, when everything is granted. */
  function StoragePlan(base: nat, capacity: nat, st: State, nameLength: nat, bytes: nat): Option<(State, Span)> {
    var plan := HeaderPlan(base, capacity, st, nameLength);
    if plan.None? || bytes == 0 then None
    else
      var (next, storage) := Alloc(base, capacity, plan.value.0, bytes, 64);
      if storage.Granted? then Some((next, storage.span)) else None
  }

  lemma {:induction false} HeaderPlanExact(base: nat, capacity: nat, st: State, nameLength: nat)
    ensures var plan, header := HeaderPlan(base, capacity, st, nameLength), AlignedOffset(base, st.offset, 8);
            && (plan.Some? <==> !st.frozen && header + 152 + nameLength + 1 <= capacity)
            && (plan.Some? ==>
              && plan.value.1 == Span(header, 152, st.generation) && !plan.value.0.frozen
              && plan.value.0.offset == header + 152 + nameLength + 1 && plan.value.0.generation == st.generation)
  {
    var (s1, header) := Alloc(base, capacity, st, HEADER_BYTES, 8);
    AlignUpIsLeast(base + st.offset, 8);
    if header.Granted? {
      AlignUpIsLeast(base + s1.offset, 1);
    }
  }

  /** Descriptor, name and storage stand in this order, each at the next aligned place; the plan fails exactly
      on a frozen arena, for no bytes, or when the end lies behind the capacity. */
  lemma {:induction false} StoragePlanExact(base: nat, capacity: nat, st: State, nameLength: nat, bytes: nat)
    ensures var plan := StoragePlan(base, capacity, st, nameLength, bytes);
            var header := AlignedOffset(base, st.offset, 8);
            var storage := AlignedOffset(base, header + 152 + nameLength + 1, 64);
            && (plan.Some? <==> !st.frozen && bytes > 0 && storage + bytes <= capacity)
            && (plan.Some? ==>
              && plan.value.1 == Span(storage, bytes, st.generation)
              && plan.value.0.offset == storage + bytes && plan.value.0.generation == st.generation
              && HeaderPlan(base, capacity, st, nameLength).value.1 == Span(header, 152, st.generation))
  {
    HeaderPlanExact(base, capacity, st, nameLength);
    AlignUpIsLeast(base + AlignedOffset(base, st.offset, 8) + 152 + nameLength + 1, 64);
  }

  lemma {:induction false} StoragePlanKeeps(base: nat, capacity: nat, st: State, nameLength: nat, bytes: nat)
    requires StoragePlan(base, capacity, st, nameLength, bytes).Some?
    ensures var (next, storage) := StoragePlan(base, capacity, st, nameLength, bytes).value;
            && next.generation == st.generation == storage.generation
            && storage.nbytes == bytes && (base + storage.offset) % 64 == 0
            && st.offset <= storage.offset && storage.End() <= next.offset <= capacity
  {
    StoragePlanExact(base, capacity, st, nameLength, bytes);
    var header := AlignedOffset(base, st.offset, 8);
    AlignUpIsLeast(base + st.offset, 8);
    AlignUpIsLeast(base + header + 152 + nameLength + 1, 64);
  }

  // ---------- tensors ----------

  /** `tensor_check_live`, given the arenas of the header and of the storage. */
  predicate LiveHandle(h: Handle, headerArena: State, storageArena: State)
    requires |h.tensor.sizes| == |h.tensor.strides|
  {
    && h.headerGeneration == headerArena.generation
    && h.storageGeneration == storageArena.generation
    && SpanBytes(h.tensor) <= h.tensor.allocationNbytes
  }

  /** The sizes that `tensor_empty` accepts on an arena: every one positive, fewer than 2^63 elements, a
      byte size that does not wrap to 0, and room. */
  ghost predicate Accepts(base: nat, capacity: nat, st: State, nameLength: nat, elem: nat, sizes: seq<int>) {
    && Positive(sizes) && PrefixesFit(sizes)
    && StoragePlan(base, capacity, st, nameLength, Product(sizes) * elem % WORD).Some?
  }

  lemma {:induction false} AllocWithRoom(base: nat, capacity: nat, st: State, nbytes: nat, align: nat)
    requires align > 0 && !st.frozen && st.offset + (align - 1) + nbytes <= capacity
    ensures var (next, r) := Alloc(base, capacity, st, nbytes, align);
            r.Granted? && !next.frozen && next.offset <= st.offset + (align - 1) + nbytes
  {
    AlignUpIsLeast(base + st.offset, align);
  }

  /** Room for the descriptor, the name and the storage, wherever they have to be aligned. */
  predicate HasRoom(capacity: nat, st: State, nameLength: nat, bytes: nat) {
    !st.frozen && st.offset + (7 + HEADER_BYTES) + (nameLength + 1) + (63 + bytes) <= capacity
  }

  lemma {:induction false} RoomSuffices(base: nat, capacity: nat, st: State, nameLength: nat, bytes: nat)
    requires HasRoom(capacity, st, nameLength, bytes) && bytes > 0
    ensures StoragePlan(base, capacity, st, nameLength, bytes).Some?
  {
    AllocWithRoom(base, capacity, st, HEADER_BYTES, 8);
    var s1 := Alloc(base, capacity, st, HEADER_BYTES, 8).0;
    AllocWithRoom(base, capacity, s1, nameLength + 1, 1);
    AllocWithRoom(base, capacity, Alloc(base, capacity, s1, nameLength + 1, 1).0, bytes, 64);
  }

  /** 2^62 + 1 elements of four bytes: every arena with room for four bytes of storage accepts them, the
      live check compares four with four, and the elements do not fit. */
  lemma {:induction false} HugeTensor(base: nat, capacity: nat, st: State, nameLength: nat, allocation: nat)
    requires HasRoom(capacity, st, nameLength, 4)
    ensures Accepts(base, capacity, st, nameLength, 4, [0x4000_0000_0000_0001])
    ensures var t := Tensor(4, [0x4000_0000_0000_0001], Strides([0x4000_0000_0000_0001]), allocation, 4, 0, false);
            IsAllocated(t) && SpanBytes(t) == 4 <= t.allocationNbytes && !ElementsInside(t)
  {
    var sizes := [0x4000_0000_0000_0001];
    var t := Tensor(4, sizes, Strides(sizes), allocation, 4, 0, false);
    assert sizes[1..] == [] && Product(sizes) == sizes[0] * Product([]) == sizes[0];
    assert PrefixProduct(sizes, 0) == 1 && PrefixProduct(sizes, 1) == PrefixProduct(sizes, 0) * sizes[0];
    AllocationExact(t);
    RoomSuffices(base, capacity, st, nameLength, 4);
  }

  /** `tensor_empty`: a live contiguous tensor on a fresh 64-byte aligned span; `None` where the source
      aborts. It has room for its elements exactly when their bytes fit in 64 bits. */
  method TensorEmpty(arena: Arena, nameLength: nat, elem: nat, sizes: seq<int>) returns (r: Option<Handle>)
    requires arena.Valid() && |sizes| <= 4 && (elem == 2 || elem == 4)
    modifies arena
    ensures arena.Valid()
    ensures r.Some? <==> Accepts(arena.base, arena.capacity, old(arena.Model()), nameLength, elem, sizes)
    ensures r.Some? ==>
              var t := r.value.tensor;
              && t.sizes == sizes && t.elem == elem && IsAllocated(t) && OffsetsFit(t)
              && (IsBase(t) <==> Product(sizes) * elem < WORD)
              && LiveHandle(r.value, arena.Model(), arena.Model())
              && (arena.base + t.allocation) % 64 == 0
              && old(arena.offset) <= t.allocation && t.allocation + t.allocationNbytes <= arena.offset
  {
    ghost var start := arena.Model();
    var header := AllocHeader(arena, nameLength);
    if header.None? {
      return None;
    }
    PlanKeeps(arena.base, arena.capacity, start, nameLength);
    var numel := Numel(sizes);
    if numel.None? {
      return None;
    }
    var bytes := numel.value * elem % WORD;
    if bytes == 0 {
      return None;
    }
    var strides := MakeContiguousStrides(sizes);
    var storage := AllocSpan(arena, bytes, 64);
    if storage.None? {
      return None;
    }
    StoragePlanKeeps(arena.base, arena.capacity, start, nameLength, bytes);
    var t := Tensor(elem, sizes, strides[..], storage.value.offset, storage.value.nbytes, 0, false);
    AllocationExact(t);
    AllocatedOffsetsFit(t);
    r := Some(Handle(t, header.value.generation, storage.value.generation));
  }

  /** `tensor_slice`: `None` where the source aborts. */
  method TensorSlice(headerArena: Arena, storage: Arena, h: Handle, baseHeader: Arena, nameLength: nat, c: Cut)
    returns (r: Option<Handle>)
    requires headerArena.Valid() && storage.Valid() && OffsetsFit(h.tensor)
    modifies headerArena
    ensures headerArena.Valid()
    ensures r.Some? <==>
              && old(LiveHandle(h, baseHeader.Model(), storage.Model())) && CutOk(h.tensor.sizes, c)
              && HeaderPlan(headerArena.base, headerArena.capacity, old(headerArena.Model()), nameLength).Some?
              && SpanBytes(CodeSlice(h.tensor, c)) <= h.tensor.allocationNbytes
    ensures r.Some? ==>
              && CutOk(h.tensor.sizes, c) && r.value.tensor == CodeSlice(h.tensor, c) && OffsetsFit(r.value.tensor)
              && LiveHandle(r.value, headerArena.Model(), storage.Model())
  {
    if h.headerGeneration != baseHeader.generation || h.storageGeneration != storage.generation
       || SpanBytes(h.tensor) > h.tensor.allocationNbytes {
      return None;
    }
    if c.dim >= |h.tensor.sizes| || c.start < 0 || c.len <= 0 || c.start + c.len > h.tensor.sizes[c.dim] {
      return None;
    }
    ghost var start, storageStart := headerArena.Model(), storage.generation;
    var header := AllocHeader(headerArena, nameLength);
    if header.None? {
      return None;
    }
    PlanKeeps(headerArena.base, headerArena.capacity, start, nameLength);
    assert storage.generation == storageStart;
    var t := CodeSlice(h.tensor, c);
    SliceOffsetsFit(h.tensor, c);
    if SpanBytes(t) > t.allocationNbytes {
      return None;
    }
    r := Some(Handle(t, header.value.generation, h.storageGeneration));
  }

  // ---------- how long a tensor lives ----------

  lemma {:induction false} GenerationGrows(base: nat, capacity: nat, made: seq<Op>, more: seq<Op>)
    ensures var before, after := Run(base, capacity, made).generation, Run(base, capacity, made + more).generation;
            before <= after && (after == before <==> ResetOp !in more)
    decreases |more|
  {
    if more == [] {
      assert made + more == made;
    } else {
      var n := |more| - 1;
      GenerationGrows(base, capacity, made, more[..n]);
      LastSplit(more);
      InConcat(ResetOp, more[..n], [more[n]]);
      assert (made + more)[..|made + more| - 1] == made + more[..n];
    }
  }

  /** A handle passes the live check exactly until one of its two arenas is reset, whatever is allocated or frozen in
      between: the arena of its descriptor or the arena of its storage. */
  lemma {:induction false} HandleLife(h: Handle, header: (nat, nat), storage: (nat, nat), made: (seq<Op>, seq<Op>),
        more: (seq<Op>, seq<Op>))
    requires |h.tensor.sizes| == |h.tensor.strides| && SpanBytes(h.tensor) <= h.tensor.allocationNbytes
    requires h.headerGeneration == Run(header.0, header.1, made.0).generation
    requires h.storageGeneration == Run(storage.0, storage.1, made.1).generation
    ensures LiveHandle(h, Run(header.0, header.1, made.0 + more.0), Run(storage.0, storage.1, made.1 + more.1))
            <==> ResetOp !in more.0 && ResetOp !in more.1
  {
    GenerationGrows(header.0, header.1, made.0, more.0);
    GenerationGrows(storage.0, storage.1, made.1, more.1);
  }
}
