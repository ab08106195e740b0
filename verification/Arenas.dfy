/** Bump arenas with generations, freezing and spans aligned at their absolute address. */
module Arenas {
  import opened Arith
  import opened Seqs
  import opened Bytes

  /** A granted piece of an arena. */
  datatype Span = Span(offset: nat, nbytes: nat, generation: nat) {
    function End(): nat { offset + nbytes }
  }

  datatype AllocResult = Granted(span: Span) | Oom | Frozen

  /** The fields of an arena, and the spans granted in its current generation. */
  datatype State = State(offset: nat, watermark: nat, generation: nat, frozen: bool, spans: seq<Span>)

  const INITIAL: State := State(0, 0, 1, false, [])

  /** The first offset at or after `offset` whose absolute address is a multiple of `align`. */
  function AlignedOffset(base: nat, offset: nat, align: nat): nat
    requires align > 0
  {
    AlignUpIsLeast(base + offset, align);
    AlignUp(base + offset, align) - base
  }

  /** What `arena_try_alloc_span` does to an arena. */
  function Alloc(base: nat, capacity: nat, st: State, nbytes: nat, align: nat): (State, AllocResult)
    requires align > 0
  {
    var off := AlignedOffset(base, st.offset, align);
    if st.frozen then (st, Frozen)
    else if off + nbytes > capacity then (st, Oom)
    else
      var span := Span(off, nbytes, st.generation);
      (State(off + nbytes, Max(st.watermark, off + nbytes), st.generation, false, st.spans + [span]), Granted(span))
  }

  function Reset(st: State): State {
    State(0, st.watermark, st.generation + 1, st.frozen, [])
  }

  function Freeze(st: State): State { st.(frozen := true) }

  // ---------- what every step keeps ----------

  /** The spans of one generation lie in the arena, one after the other, without overlap. */
  ghost predicate Sound(capacity: nat, st: State) {
    && st.offset <= st.watermark <= capacity && st.generation > 0
    && (forall i :: 0 <= i < |st.spans| ==> SpanSound(st.spans[i], st.offset, st.generation))
    && (forall i, j :: 0 <= i < j < |st.spans| ==> st.spans[i].End() <= st.spans[j].offset)
  }

  ghost predicate SpanSound(span: Span, end: nat, generation: nat) {
    span.nbytes > 0 && span.End() <= end && span.generation == generation
  }

  /** An allocation keeps the arena sound; a granted span is aligned, inside the arena and after
      every earlier span; a refused one changes nothing. */
  lemma {:induction false} AllocKeeps(base: nat, capacity: nat, st: State, nbytes: nat, align: nat)
    requires Sound(capacity, st) && nbytes > 0 && align > 0
    ensures var (next, r) := Alloc(base, capacity, st, nbytes, align);
            && Sound(capacity, next)
            && (r.Granted? ==>
              (base + r.span.offset) % align == 0 && r.span.End() <= capacity
              && st.offset <= r.span.offset)
            && (!r.Granted? ==> next == st)
  {
    AlignUpIsLeast(base + st.offset, align);
    var (next, r) := Alloc(base, capacity, st, nbytes, align);
    if r.Granted? {
      forall i | 0 <= i < |next.spans|
        ensures SpanSound(next.spans[i], next.offset, next.generation)
      {
        assert i < |st.spans| ==> SpanSound(st.spans[i], st.offset, st.generation);
      }
      forall i | 0 <= i < |st.spans|
        ensures st.spans[i].End() <= r.span.offset
      {
        assert SpanSound(st.spans[i], st.offset, st.generation);
      }
    }
  }

  /** A frozen arena refuses everything as frozen; any other grants exactly what fits behind the next aligned
      place. */
  lemma {:induction false} AllocStatus(base: nat, capacity: nat, st: State, nbytes: nat, align: nat)
    requires align > 0
    ensures var r := Alloc(base, capacity, st, nbytes, align).1;
            && (r.Frozen? <==> st.frozen)
            && (r.Granted? <==> !st.frozen && AlignUp(base + st.offset, align) + nbytes <= base + capacity)
            && (r.Granted? ==> base + r.span.offset == AlignUp(base + st.offset, align) && r.span.nbytes == nbytes)
  {
    AlignUpIsLeast(base + st.offset, align);
  }

  /** An allocation is refused only when no aligned place is left. */
  lemma {:induction false} RefusedMeansFull(base: nat, capacity: nat, st: State, nbytes: nat, align: nat, off: nat)
    requires align > 0 && Alloc(base, capacity, st, nbytes, align).1.Oom?
    requires st.offset <= off && (base + off) % align == 0
    ensures off + nbytes > capacity
  {
    AlignUpIsLeast(base + st.offset, align);
  }

  // ---------- runs ----------

  datatype Op = AllocOp(nbytes: nat, align: nat) | ResetOp | FreezeOp

  /** Operations the arena accepts: no empty allocation, no reset once frozen. */
  ghost predicate Allowed(st: State, op: Op) {
    match op
    case AllocOp(nbytes, align) => nbytes > 0 && align > 0
    case ResetOp => !st.frozen
    case FreezeOp => true
  }

  function Step(base: nat, capacity: nat, st: State, op: Op): State {
    match op
    case AllocOp(nbytes, align) => if align > 0 then Alloc(base, capacity, st, nbytes, align).0 else st
    case ResetOp => Reset(st)
    case FreezeOp => Freeze(st)
  }

  function Run(base: nat, capacity: nat, ops: seq<Op>): State {
    if ops == [] then INITIAL else Step(base, capacity, Run(base, capacity, ops[..|ops| - 1]), ops[|ops| - 1])
  }

  ghost predicate AllowedRun(base: nat, capacity: nat, ops: seq<Op>) {
    ops != [] ==>
      && AllowedRun(base, capacity, ops[..|ops| - 1])
      && Allowed(Run(base, capacity, ops[..|ops| - 1]), ops[|ops| - 1])
  }

  /** The largest offset any point of the run has reached. */
  function HighWater(base: nat, capacity: nat, ops: seq<Op>): nat {
    if ops == [] then 0
    else Max(HighWater(base, capacity, ops[..|ops| - 1]), Run(base, capacity, ops).offset)
  }

  /** Over any run the spans of the current generation are disjoint and inside the arena, and the
      watermark is exactly the high-water mark. */
  lemma {:induction false} RunSound(base: nat, capacity: nat, ops: seq<Op>)
    requires AllowedRun(base, capacity, ops)
    ensures Sound(capacity, Run(base, capacity, ops))
    ensures Run(base, capacity, ops).watermark == HighWater(base, capacity, ops)
  {
    if ops != [] {
      var before, op := Run(base, capacity, ops[..|ops| - 1]), ops[|ops| - 1];
      RunSound(base, capacity, ops[..|ops| - 1]);
      if op.AllocOp? {
        AllocKeeps(base, capacity, before, op.nbytes, op.align);
      }
    }
  }

  /** Once frozen, an arena keeps its spans, offset and generation for good. */
  lemma {:induction false} FrozenForGood(base: nat, capacity: nat, ops: seq<Op>, more: seq<Op>)
    requires AllowedRun(base, capacity, ops + more) && Run(base, capacity, ops).frozen
    ensures Run(base, capacity, ops + more) == Run(base, capacity, ops)
  {
    if more == [] {
      assert ops + more == ops;
    } else {
      var all := ops + more;
      assert all[..|all| - 1] == ops + more[..|more| - 1];
      FrozenForGood(base, capacity, ops, more[..|more| - 1]);
    }
  }

  // ---------- the mask arithmetic ----------

  lemma {:induction false} AndLowMask(x: nat, j: nat)
    ensures BitAnd(x, Pow2(j) - 1) == x % Pow2(j)
  {
    if j > 0 {
      AndLowMask(x / 2, j - 1);
      LowMaskStep(x, Pow2(j - 1));
    }
  }

  lemma {:induction false} LowMaskStep(x: nat, b: nat)
    requires b > 0 && BitAnd(x / 2, b - 1) == x / 2 % b
    ensures BitAnd(x, 2 * b - 1) == x % (2 * b)
  {
    HalveRemainder(x, b);
    assert (2 * b - 1) / 2 == b - 1 && (2 * b - 1) % 2 == 1;
  }

  /** Adding a whole number of alignments before rounding up adds it after. */
  lemma {:induction false} AlignUpShift(v: nat, q: nat, a: nat)
    requires a > 0
    ensures AlignUp(q * a + v, a) == q * a + AlignUp(v, a)
  {
    var x := v + a - 1;
    DivMod(x, a);
    assert q * a + x / a * a == (q + x / a) * a;
    DivUnique(q * a + x, a, q + x / a, x % a);
  }

  lemma {:induction false} LowBits(base: nat, a: nat)
    requires a > 0 && IsPow2(a)
    ensures BitAnd(base, a - 1) == base % a < a
  {
    var j: nat :| a == Pow2(j);
    AndLowMask(base, j);
  }

  /** The offset computed with masks is the aligned offset. */
  lemma {:induction false} MaskedOffset(base: nat, offset: nat, a: nat)
    requires 0 < a <= 0x4000_0000_0000_0000 && IsPow2(a) && offset <= 0x4000_0000_0000_0000
    ensures var r := BitAnd(base, a - 1);
            r <= AlignUpMask(offset + r, a) && AlignUpMask(offset + r, a) - r == AlignedOffset(base, offset, a)
  {
    LowBits(base, a);
    var qa, r := SplitBase(base, offset, a);
    MaskIsAlignUp(offset + r, a);
    AlignUpIsLeast(offset + r, a);
    Regroup(qa, r, offset, a);
  }

  /** The base is a whole number of alignments and a rest; the whole part can be added after rounding. */
  lemma {:induction false} SplitBase(base: nat, offset: nat, a: nat) returns (qa: nat, r: nat)
    requires a > 0
    ensures base == qa + r && r == base % a
    ensures AlignUp(qa + (offset + r), a) == qa + AlignUp(offset + r, a)
  {
    r := base % a;
    DivMod(base, a);
    qa := base - r;
    AlignUpShift(offset + r, base / a, a);
  }

  lemma {:induction false} Regroup(qa: nat, r: nat, offset: nat, a: nat)
    requires a > 0 && AlignUp(qa + (offset + r), a) == qa + AlignUp(offset + r, a)
    ensures AlignedOffset(qa + r, offset, a) == AlignUp(offset + r, a) - r
  {
  }

  // ---------- the arena ----------

  class Arena {
    /** Absolute address of the first byte, and size. */
    const base: nat
    const capacity: nat
    var offset: nat
    var watermark: nat
    var generation: nat
    var frozen: bool
    var bytes: Data
    /** Spans granted in the current generation. */
    ghost var spans: seq<Span>

    ghost predicate Valid()
      reads this
    {
      && |bytes| == capacity <= 0x4000_0000_0000_0000
      && Sound(capacity, Model())
      && generation < WORD
    }

    ghost function Model(): State
      reads this
    {
      State(offset, watermark, generation, frozen, spans)
    }

    /** `arena_init`; the allocator returns an address that is a multiple of 256. */
    constructor (base: nat, capacity: nat)
      requires capacity <= 0x4000_0000_0000_0000
      ensures Valid() && Model() == INITIAL && this.base == base && this.capacity == capacity
    {
      this.base := base;
      this.capacity := capacity;
      offset, watermark, generation, frozen := 0, 0, 1, false;
      bytes := Zeros(capacity);
      spans := [];
    }

    /** `arena_reset`. */
    method ResetArena()
      requires Valid() && !frozen && generation + 1 < WORD
      modifies this`offset, this`generation, this`spans
      ensures Valid() && Model() == Reset(old(Model()))
    {
      offset := 0;
      generation := generation + 1;
      spans := [];
    }

    /** `arena_freeze`. */
    method FreezeArena()
      requires Valid()
      modifies this`frozen
      ensures Valid() && Model() == Freeze(old(Model()))
    {
      frozen := true;
    }

    /** `arena_try_alloc_span`; an alignment of 0 stands for 8. A granted span is zeroed, other bytes
        keep their value. */
    method TryAlloc(nbytes: nat, align0: nat) returns (r: AllocResult)
      requires Valid() && nbytes > 0
      requires align0 == 0 || (align0 <= 0x4000_0000_0000_0000 && BitAnd(align0, align0 - 1) == 0)
      modifies this`offset, this`watermark, this`bytes, this`spans
      ensures Valid()
      ensures (Model(), r) == Alloc(base, capacity, old(Model()), nbytes, if align0 == 0 then 8 else align0)
      ensures r.Granted? ==> forall i :: 0 <= i < capacity ==>
                bytes[i] == if r.span.offset <= i < r.span.End() then 0 else old(bytes[i])
      ensures !r.Granted? ==> bytes == old(bytes)
    {
      var align := if align0 == 0 then 8 else align0;
      EightIsPow2();
      AllocKeeps(base, capacity, Model(), nbytes, align);
      if frozen {
        return Frozen;
      }
      var off := Place(base, offset, align);
      if off > capacity || nbytes > capacity - off {
        return Oom;
      }
      bytes := Cleared(bytes, off, nbytes);
      offset := off + nbytes;
      if offset > watermark {
        watermark := offset;
      }
      var span := Span(off, nbytes, generation);
      spans := spans + [span];
      r := Granted(span);
    }
  }

  /** The offset of the next span, computed with masks. */
  method Place(base: nat, offset: nat, align: nat) returns (off: nat)
    requires 0 < align <= 0x4000_0000_0000_0000 && BitAnd(align, align - 1) == 0 && offset <= 0x4000_0000_0000_0000
    ensures off == AlignedOffset(base, offset, align)
  {
    PlaceIs(base, offset, align);
    off := MaskedPlace(base, offset, align);
  }

  /** `align_up(offset + base_mod, align) - base_mod`. */
  function MaskedPlace(base: nat, offset: nat, align: nat): int
    requires 0 < align <= 0x4000_0000_0000_0000
  {
    AlignUpMask(offset + BitAnd(base, align - 1), align) - BitAnd(base, align - 1)
  }

  lemma {:induction false} PlaceIs(base: nat, offset: nat, align: nat)
    requires 0 < align <= 0x4000_0000_0000_0000 && BitAnd(align, align - 1) == 0 && offset <= 0x4000_0000_0000_0000
    ensures MaskedPlace(base, offset, align) == AlignedOffset(base, offset, align)
  {
    PowerOfTwoTest(align);
    MaskedOffset(base, offset, align);
  }

  function Cleared(bytes: Data, off: nat, n: nat): (r: Data)
    requires off + n <= |bytes|
    ensures |r| == |bytes| && forall i :: 0 <= i < |r| ==> r[i] == if off <= i < off + n then 0 else bytes[i]
  {
    bytes[..off] + Zeros(n) + bytes[off + n..]
  }

  lemma {:induction false} EightIsPow2()
    ensures BitAnd(8, 7) == 0
  {
    assert BitAnd(4, 3) == 2 * BitAnd(2, 1);
    assert BitAnd(2, 1) == 2 * BitAnd(1, 0);
  }
}
