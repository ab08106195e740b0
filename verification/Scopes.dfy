/** The `gd_begin` / `gd_end` protocol over the scratch and data rings: properties of whole runs. */
module Scopes {
  import opened Rings

  datatype Ctx = Ctx(scratch: Ring, data: Ring, backend: Backend, inScope: bool) {
    ghost predicate Valid() { scratch.Valid() && data.Valid() }
  }

  /** Scope boundaries, and what the backend or its user can do in between. */
  datatype Op = Begin | End | Complete | Wait(fence: nat)

  /** What the source checks of its callers. */
  ghost predicate Allowed(c: Ctx, op: Op) {
    match op
    case Begin => !c.inScope
    case End => c.inScope && c.scratch.current >= 0 && c.data.current >= 0
    case Complete => true
    case Wait(_) => true
  }

  function BeginScope(c: Ctx): Ctx
    requires c.Valid()
  {
    var (scratch, b, _) := Select(c.scratch, c.backend);
    var (data, b', _) := Select(c.data, b);
    Ctx(scratch, data, b', true)
  }

  function EndScope(c: Ctx): Ctx
    requires c.Valid() && c.scratch.current >= 0 && c.data.current >= 0
  {
    var b := Record(c.backend);
    Ctx(RecordFence(c.scratch, b.next), RecordFence(c.data, b.next), b, false)
  }

  function Step(c: Ctx, op: Op): (next: Ctx)
    requires c.Valid() && Allowed(c, op)
    ensures next.Valid() && |next.scratch.fences| == |c.scratch.fences| && |next.data.fences| == |c.data.fences|
  {
    match op
    case Begin => BeginScope(c)
    case End => EndScope(c)
    case Complete => c.(backend := CompleteAll(c.backend))
    case Wait(fence) => c.(backend := WaitUntil(c.backend, fence))
  }

  function NewRing(n: nat): (r: Ring) {
    Ring(seq(n, i => 0), -1, seq(n, i => 1), 0)
  }

  /** `ctx_init` with rings of any positive sizes. */
  function Initial(ns: nat, nd: nat): (c: Ctx)
    requires ns > 0 && nd > 0
    ensures c.Valid() && |c.scratch.fences| == ns && |c.data.fences| == nd
  {
    Ctx(NewRing(ns), NewRing(nd), Backend(0, 0, 0), false)
  }

  // ---------- runs ----------

  /** A run: every operation is allowed where it happens. */
  ghost predicate IsRun(c: Ctx, ops: seq<Op>, end: Ctx): (run: bool)
    requires c.Valid()
    ensures run ==> end.Valid()
    decreases |ops|
  {
    if ops == [] then end == c
    else Allowed(c, ops[0]) && IsRun(Step(c, ops[0]), ops[1..], end)
  }

  /** The scopes begun in a run. */
  function Begun(ops: seq<Op>): nat {
    if ops == [] then 0 else (if ops[0].Begin? then 1 else 0) + Begun(ops[1..])
  }

  function Ended(c: Ctx, k: nat): int { if c.inScope then k - 1 else k }

  /** The context after `k` scopes have begun. */
  ghost predicate After(c: Ctx, k: nat) {
    && (c.inScope ==> k > 0)
    && RingAfter(c.scratch, k, Ended(c, k)) && RingAfter(c.data, k, Ended(c, k))
    && c.backend.next == Ended(c, k)
  }

  lemma {:induction false} InitiallyAfter(ns: nat, nd: nat)
    requires ns > 0 && nd > 0
    ensures After(Initial(ns, nd), 0)
  {
  }

  /** Beginning scope `k`: both rings move to slot `k % n`, and the backend waits for exactly the
      fences of the scopes whose slots are taken over. */
  lemma {:induction false} BeginExact(c: Ctx, k: nat)
    requires After(c, k) && !c.inScope
    ensures var next, ns, nd := BeginScope(c), |c.scratch.fences|, |c.data.fences|;
            && next.scratch.current == Slot(k, ns) && next.data.current == Slot(k, nd)
            && next.backend == WaitUntil(WaitUntil(c.backend, OldFence(k, ns)), OldFence(k, nd))
            && After(next, k + 1)
  {
    SelectIsNext(c.scratch, c.backend, k);
    var b := Select(c.scratch, c.backend).1;
    SelectIsNext(c.data, b, k);
  }

  lemma {:induction false} StepAfter(c: Ctx, op: Op, k: nat)
    requires After(c, k) && Allowed(c, op)
    ensures After(Step(c, op), if op.Begin? then k + 1 else k)
  {
    match op
    case Begin => BeginExact(c, k);
    case End =>
      RecordIsNext(c.scratch, k);
      RecordIsNext(c.data, k);
    case Complete =>
    case Wait(fence) =>
  }

  /** Whatever the order of scopes, completions and waits, for recorded fences or not: after `k` scopes the
      rings stand where `k` round-robin steps put them, and every slot carries the fence of its last ended
      scope. */
  lemma {:induction false} RunAfter(c: Ctx, k: nat, ops: seq<Op>, end: Ctx)
    requires After(c, k) && IsRun(c, ops, end)
    ensures After(end, k + Begun(ops))
    ensures |end.scratch.fences| == |c.scratch.fences| && |end.data.fences| == |c.data.fences|
    decreases |ops|
  {
    if ops != [] {
      StepAfter(c, ops[0], k);
      RunAfter(Step(c, ops[0]), if ops[0].Begin? then k + 1 else k, ops[1..], end);
    }
  }

  /** In every run from the start, scope `k` uses slot `k % n` of each ring. */
  lemma {:induction false} ScopeSlots(ns: nat, nd: nat, ops: seq<Op>, c: Ctx)
    requires ns > 0 && nd > 0 && IsRun(Initial(ns, nd), ops, c) && !c.inScope
    ensures var k, next := Begun(ops), BeginScope(c);
            next.scratch.current == k % ns && next.data.current == k % nd
  {
    InitiallyAfter(ns, nd);
    RunAfter(Initial(ns, nd), 0, ops, c);
    BeginExact(c, Begun(ops));
    SlotIsRemainder(Begun(ops), ns);
    SlotIsRemainder(Begun(ops), nd);
  }

  /** The slot generation a descriptor made in scope `i` remembers. */
  lemma {:induction false} ScopeGeneration(c: Ctx, i: nat)
    requires After(c, i + 1)
    ensures c.scratch.current == i % |c.scratch.fences| && c.data.current == i % |c.data.fences|
    ensures c.scratch.generations[c.scratch.current] == i / |c.scratch.fences| + 2
    ensures c.data.generations[c.data.current] == i / |c.data.fences| + 2
  {
    UsesBefore(i, |c.scratch.fences|);
    UsesBefore(i, |c.data.fences|);
    SlotIsRemainder(i, |c.scratch.fences|);
    SlotIsRemainder(i, |c.data.fences|);
  }

  /** A descriptor: the slot of its arena and the generation it was made in. */
  datatype Descriptor = Descriptor(slot: nat, generation: nat)

  /** The generation check of `tensor_check_live`. */
  predicate Live(r: Ring, d: Descriptor) {
    d.slot < |r.generations| && r.generations[d.slot] == d.generation
  }

  function Describe(r: Ring): Descriptor
    requires r.Valid() && r.current >= 0
  {
    Descriptor(r.current, r.generations[r.current])
  }

  lemma {:induction false} LiveExactly(now: Ring, later: Ring, i: nat, k: nat, ended: nat, endedLater: nat)
    requires RingAfter(now, i + 1, ended) && RingAfter(later, k, endedLater) && i < k && |now.fences| == |later.fences|
    ensures Live(later, Describe(now)) <==> k <= i + |now.fences|
  {
    SameGeneration(i, i + 1, |now.fences|);
    SameGeneration(i, k, |now.fences|);
  }

  /** A descriptor made in scope `i` passes the generation check exactly until scope `i + n` begins,
      and never again after, whatever happens in between. */
  lemma {:induction false} DescriptorLife(ns: nat, nd: nat, ops: seq<Op>, c: Ctx, more: seq<Op>, later: Ctx)
    requires ns > 0 && nd > 0 && IsRun(Initial(ns, nd), ops, c) && c.inScope && IsRun(c, more, later)
    ensures Begun(ops) > 0 && c.scratch.current >= 0 && c.data.current >= 0
    ensures var i, k := Begun(ops) - 1, Begun(ops) + Begun(more);
            && (Live(later.scratch, Describe(c.scratch)) <==> k <= i + ns)
            && (Live(later.data, Describe(c.data)) <==> k <= i + nd)
  {
    InitiallyAfter(ns, nd);
    RunAfter(Initial(ns, nd), 0, ops, c);
    RunAfter(c, Begun(ops), more, later);
    var i, k := Begun(ops) - 1, Begun(ops) + Begun(more);
    LiveExactly(c.scratch, later.scratch, i, k, Ended(c, i + 1), Ended(later, k));
    LiveExactly(c.data, later.data, i, k, Ended(c, i + 1), Ended(later, k));
  }

  /** No slot is reset while its fence is in flight, in any state at all. */
  lemma {:induction false} NoResetInFlight(c: Ctx)
    requires c.Valid()
    ensures var next := BeginScope(c);
            && c.scratch.fences[next.scratch.current] <= next.backend.completed
            && c.data.fences[next.data.current] <= next.backend.completed
            && (forall s ::
              0 <= s < |c.scratch.fences| && s != next.scratch.current
              ==> next.scratch.generations[s] == c.scratch.generations[s])
            && (forall s ::
              0 <= s < |c.data.fences| && s != next.data.current
              ==> next.data.generations[s] == c.data.generations[s])
  {
    SelectSafe(c.scratch, c.backend);
    SelectSafe(c.data, Select(c.scratch, c.backend).1);
  }
}
