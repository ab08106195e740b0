/** State objects as the code updates them (`state_object_create`, `state_object_mark_used`,
    `state_object_reset_or_realloc`). */
module StateBuffers {
  import opened Arith
  import opened Seqs
  import opened Arenas
  import opened Rings
  import opened StateObjects
  import opened Context

  class StateObject {
    var offset: nat
    var nbytes: nat
    var generation: nat
    var lastUseFence: nat

    ghost function Model(): Obj
      reads this
    {
      Obj(offset, nbytes, generation, lastUseFence)
    }

    constructor (span: Span)
      ensures Model() == Obj(span.offset, span.nbytes, span.generation, 0)
    {
      offset, nbytes, generation, lastUseFence := span.offset, span.nbytes, span.generation, 0;
    }

    /** `state_object_mark_used`. */
    method MarkUsed(fence: nat)
      requires fence != 0
      modifies this
      ensures Model() == old(Model()).(lastUse := fence)
    {
      lastUseFence := fence;
    }

    method MoveTo(span: Span)
      modifies this
      ensures Model() == Obj(span.offset, span.nbytes, span.generation, 0)
    {
      offset, nbytes, generation, lastUseFence := span.offset, span.nbytes, span.generation, 0;
    }
  }

  function PlaceOf(ctx: GdContext): Place {
    Place(ctx.state.base, ctx.state.capacity)
  }

  /** `arena_alloc_span` on the state arena: it aborts unless the span is granted. */
  method AllocState(ctx: GdContext, nbytes: nat, align: nat) returns (span: Span)
    requires ctx.Valid() && nbytes > 0 && (align == 1 || align == 64)
    requires Alloc(ctx.state.base, ctx.state.capacity, ctx.state.Model(), nbytes, align).1.Granted?
    modifies ctx.state
    ensures ctx.Valid()
    ensures (ctx.state.Model(), Granted(span))
        == Alloc(ctx.state.base, ctx.state.capacity, old(ctx.state.Model()), nbytes, align)
  {
    SmallPowers();
    var r := ctx.state.TryAlloc(nbytes, align);
    span := r.span;
  }

  lemma {:induction false} SmallPowers()
    ensures BitAnd(1, 0) == 0 && BitAnd(64, 63) == 0
  {
    assert BitAnd(2, 1) == 2 * BitAnd(1, 0);
    assert BitAnd(8, 7) == 2 * BitAnd(4, 3) && BitAnd(4, 3) == 2 * BitAnd(2, 1);
    assert BitAnd(64, 63) == 2 * BitAnd(32, 31) && BitAnd(32, 31) == 2 * BitAnd(16, 15)
        && BitAnd(16, 15) == 2 * BitAnd(8, 7);
  }

  /** `state_object_create`. */
  method CreateState(ctx: GdContext, nameLength: nat, nbytes: nat) returns (o: StateObject)
    requires ctx.Valid() && StateObjects.Create(PlaceOf(ctx), ctx.state.Model(), nameLength, nbytes).Some?
    modifies ctx.state
    ensures ctx.Valid() && fresh(o)
    ensures Some((ctx.state.Model(), o.Model()))
        == StateObjects.Create(PlaceOf(ctx), old(ctx.state.Model()), nameLength, nbytes)
  {
    var name := AllocState(ctx, nameLength + 1, 1);
    var storage := AllocState(ctx, nbytes, 64);
    o := new StateObject(storage);
  }

  /** `state_object_reset_or_realloc`: the object moves when it has to grow or, where that is allowed, when it
      is in flight; the backend is waited for only where an object in flight must not move. */
  method ResetState(ctx: GdContext, o: StateObject, nbytes: nat, allowRealloc: bool) returns (moved: bool)
    requires ctx.Valid()
    requires ResetOrRealloc(PlaceOf(ctx), ctx.state.Model(), ctx.backend.Model(), o.Model(), nbytes, allowRealloc).Some?
    modifies ctx.state, ctx.backend, o
    ensures ctx.Valid()
    ensures Some(Outcome(ctx.state.Model(), ctx.backend.Model(), o.Model(), moved)) ==
            ResetOrRealloc(PlaceOf(ctx), old(ctx.state.Model()), old(ctx.backend.Model()), old(o.Model()), nbytes,
              allowRealloc)
    ensures moved <==>
            nbytes > old(o.nbytes) || (old(o.lastUseFence) > old(ctx.backend.completedFence) && allowRealloc)
    ensures old(o.lastUseFence) <= old(ctx.backend.completedFence) || allowRealloc ==>
              ctx.backend.Model() == old(ctx.backend.Model())
    ensures old(o.lastUseFence) > old(ctx.backend.completedFence) && !allowRealloc ==>
              ctx.backend.Model()
              == Backend(old(ctx.backend.nextFence), old(o.lastUseFence), old(ctx.backend.waits) + 1)
    ensures moved ==> o.offset >= old(ctx.state.offset) && o.nbytes == nbytes && o.lastUseFence == 0
    ensures !moved ==>
              o.Model() == old(o.Model()).(lastUse := 0) && ctx.state.Model() == old(ctx.state.Model())
  {
    ghost var p, arena, b, before := PlaceOf(ctx), ctx.state.Model(), ctx.backend.Model(), o.Model();
    ResetFacts(p, arena, b, before, nbytes, allowRealloc);
    moved := ResetSteps(ctx, o, nbytes, allowRealloc);
  }

  method ResetSteps(ctx: GdContext, o: StateObject, nbytes: nat, allowRealloc: bool) returns (moved: bool)
    requires ctx.Valid()
    requires ResetOrRealloc(PlaceOf(ctx), ctx.state.Model(), ctx.backend.Model(), o.Model(), nbytes, allowRealloc).Some?
    modifies ctx.state, ctx.backend, o
    ensures ctx.Valid()
    ensures Some(Outcome(ctx.state.Model(), ctx.backend.Model(), o.Model(), moved)) ==
            ResetOrRealloc(PlaceOf(ctx), old(ctx.state.Model()), old(ctx.backend.Model()), old(o.Model()), nbytes,
              allowRealloc)
  {
    if o.lastUseFence > ctx.backend.completedFence {
      if allowRealloc {
        Replace(ctx, o, nbytes);
        return true;
      }
      ctx.backend.AwaitFence(o.lastUseFence);
    }
    if nbytes > o.nbytes {
      Replace(ctx, o, nbytes);
      return true;
    }
    o.lastUseFence := 0;
    moved := false;
  }

  lemma {:induction false} ResetFacts(p: Place, arena: State, b: Backend, o: Obj, nbytes: nat, allow: bool)
    requires ResetOrRealloc(p, arena, b, o, nbytes, allow).Some? && Sound(p.capacity, arena)
    ensures var r := ResetOrRealloc(p, arena, b, o, nbytes, allow).value;
            && (r.moved <==> nbytes > o.nbytes || (o.lastUse > b.completed && allow))
            && (o.lastUse <= b.completed || allow ==> r.backend == b)
            && (o.lastUse > b.completed && !allow ==> r.backend == Backend(b.next, o.lastUse, b.waits + 1))
            && (r.moved ==> r.obj.offset >= arena.offset && r.obj.nbytes == nbytes && r.obj.lastUse == 0)
            && (!r.moved ==> r.obj == o.(lastUse := 0) && r.arena == arena)
  {
    ResetMoves(p, arena, b, o, nbytes, allow);
    ResetOutcome(p, arena, b, o, nbytes, allow);
  }

  /** Give the object a fresh span. */
  method Replace(ctx: GdContext, o: StateObject, nbytes: nat)
    requires ctx.Valid() && NewSpan(PlaceOf(ctx), ctx.state.Model(), nbytes).Some?
    modifies ctx.state, o
    ensures ctx.Valid() && Some((ctx.state.Model(), o.Model())) == NewSpan(PlaceOf(ctx), old(ctx.state.Model()), nbytes)
  {
    var storage := AllocState(ctx, nbytes, 64);
    o.MoveTo(storage);
  }
}
