/** State objects: long-lived buffers guarded by the fence of their last use. */
module StateObjects {
  import opened Arith
  import opened Seqs
  import opened Arenas
  import opened Rings

  /** Address and size of the state arena. */
  datatype Place = Place(base: nat, capacity: nat)

  datatype Obj = Obj(offset: nat, nbytes: nat, generation: nat, lastUse: nat) {
    function End(): nat { offset + nbytes }
  }

  /** A 64-byte aligned span for an object; `None` where the source aborts. */
  function NewSpan(p: Place, arena: State, nbytes: nat): Option<(State, Obj)> {
    if nbytes == 0 then None
    else
      match Alloc(p.base, p.capacity, arena, nbytes, 64)
      case (next, Granted(span)) => Some((next, Obj(span.offset, span.nbytes, span.generation, 0)))
      case _ => None
  }

  /** `state_object_create`: first the name, then the storage. */
  function Create(p: Place, arena: State, nameLength: nat, nbytes: nat): Option<(State, Obj)> {
    match Alloc(p.base, p.capacity, arena, nameLength + 1, 1)
    case (next, Granted(_)) => NewSpan(p, next, nbytes)
    case _ => None
  }

  /** `state_object_check_live`. */
  predicate LiveObj(p: Place, arena: State, o: Obj) {
    o.generation == arena.generation && o.offset <= p.capacity && o.nbytes <= p.capacity - o.offset
  }

  datatype Outcome = Outcome(arena: State, backend: Backend, obj: Obj, moved: bool)

  function Moved(p: Place, arena: State, b: Backend, nbytes: nat): Option<Outcome> {
    match NewSpan(p, arena, nbytes)
    case Some((next, o)) => Some(Outcome(next, b, o, true))
    case None => None
  }

  /** `state_object_reset_or_realloc`; `None` where the source aborts. */
  function ResetOrRealloc(p: Place, arena: State, b: Backend, o: Obj, nbytes: nat,
        allowRealloc: bool): Option<Outcome> {
    if !LiveObj(p, arena, o) then None
    else if o.lastUse > b.completed && allowRealloc then Moved(p, arena, b, nbytes)
    else
      var b' := WaitUntil(b, o.lastUse);
      if nbytes > o.nbytes then Moved(p, arena, b', nbytes)
      else Some(Outcome(arena, b', o.(lastUse := 0), false))
  }

  // ---------- what is in flight ----------

  /** Bytes `lo`, ..., `hi - 1` were handed to work that is done once `fence` completes. */
  datatype Use = Use(lo: nat, hi: nat, fence: nat)

  predicate Overlaps(u: Use, o: Obj) { u.lo < o.End() && o.offset < u.hi }

  predicate Apart(a: Obj, b: Obj) { a.End() <= b.offset || b.End() <= a.offset }

  /** The state arena, its objects, every use so far, and the backend. */
  datatype World = World(arena: State, objs: seq<Obj>, uses: seq<Use>, backend: Backend)

  /** Objects lie apart inside the used part of the arena, and so does everything ever used. */
  ghost predicate LaidOut(p: Place, w: World) {
    && Sound(p.capacity, w.arena)
    && (forall i :: 0 <= i < |w.objs| ==> w.objs[i].nbytes > 0 && w.objs[i].End() <= w.arena.offset)
    && (forall i, j :: 0 <= i < j < |w.objs| ==> Apart(w.objs[i], w.objs[j]))
    && (forall k :: 0 <= k < |w.uses| ==> w.uses[k].hi <= w.arena.offset)
  }

  /** Every use that is still in flight on an object's bytes is covered by the object's fence. */
  ghost predicate Guarded(w: World) {
    forall k, i :: 0 <= k < |w.uses| && 0 <= i < |w.objs| && Overlaps(w.uses[k], w.objs[i]) ==>
      w.uses[k].fence <= w.objs[i].lastUse || w.uses[k].fence <= w.backend.completed
  }

  /** None of the object's bytes is in flight. */
  ghost predicate Idle(w: World, o: Obj) {
    forall k :: 0 <= k < |w.uses| && Overlaps(w.uses[k], o) ==> w.uses[k].fence <= w.backend.completed
  }

  // ---------- steps ----------

  datatype Op =
    | CreateObj(nameLength: nat, bytes: nat)
    | MarkUsed(i: nat, fence: nat)
    | ResetObj(j: nat, size: nat, allowRealloc: bool)
    | NewFence
    | Complete
    | Wait(until: nat)

  /** One operation; `None` where the source aborts. */
  function Step(p: Place, w: World, op: Op): Option<World> {
    match op
    case CreateObj(nameLength, bytes) =>
      (match Create(p, w.arena, nameLength, bytes)
       case Some((arena, o)) => Some(w.(arena := arena, objs := w.objs + [o]))
       case None => None)
    case MarkUsed(i, fence) =>
      if i < |w.objs| && fence != 0
      then Some(w.(objs := w.objs[i := w.objs[i].(lastUse := fence)],
                   uses := w.uses + [Use(w.objs[i].offset, w.objs[i].End(), fence)]))
      else None
    case ResetObj(j, size, allowRealloc) =>
      if j >= |w.objs| then None
      else (match ResetOrRealloc(p, w.arena, w.backend, w.objs[j], size, allowRealloc)
            case Some(r) => Some(World(r.arena, w.objs[j := r.obj], w.uses, r.backend))
            case None => None)
    case NewFence => Some(w.(backend := Record(w.backend)))
    case Complete => Some(w.(backend := CompleteAll(w.backend)))
    case Wait(until) => Some(w.(backend := WaitUntil(w.backend, until)))
  }

  /** A mark loses nothing: it is not older than the one it replaces, or that one has completed. */
  predicate Covers(w: World, i: nat, fence: nat)
    requires i < |w.objs|
  {
    fence >= w.objs[i].lastUse || w.objs[i].lastUse <= w.backend.completed
  }

  /** What the operations need of their caller: a mark names a recorded fence and loses nothing. */
  predicate InOrder(w: World, op: Op) {
    op.MarkUsed? ==> op.fence <= w.backend.next && (op.i < |w.objs| ==> Covers(w, op.i, op.fence))
  }

  lemma {:induction false} NewSpanFresh(p: Place, arena: State, nbytes: nat)
    requires Sound(p.capacity, arena) && NewSpan(p, arena, nbytes).Some?
    ensures var (next, o) := NewSpan(p, arena, nbytes).value;
            && Sound(p.capacity, next) && o.nbytes == nbytes > 0 && o.lastUse == 0
            && arena.offset <= o.offset && o.End() == next.offset && (p.base + o.offset) % 64 == 0
            && next.generation == arena.generation == o.generation
  {
    AllocKeeps(p.base, p.capacity, arena, nbytes, 64);
  }

  lemma {:induction false} CreateFresh(p: Place, arena: State, nameLength: nat, nbytes: nat)
    requires Sound(p.capacity, arena) && Create(p, arena, nameLength, nbytes).Some?
    ensures var (next, o) := Create(p, arena, nameLength, nbytes).value;
            && Sound(p.capacity, next) && o.nbytes == nbytes > 0 && o.lastUse == 0
            && arena.offset + nameLength + 1 <= o.offset < arena.offset + nameLength + 65 && o.End() == next.offset
            && (p.base + o.offset) % 64 == 0 && next.generation == arena.generation == o.generation
  {
    AllocKeeps(p.base, p.capacity, arena, nameLength + 1, 1);
    AlignUpIsLeast(p.base + arena.offset, 1);
    AlignUpIsLeast(p.base + arena.offset + nameLength + 1, 64);
    NewSpanFresh(p, Alloc(p.base, p.capacity, arena, nameLength + 1, 1).0, nbytes);
  }

  /** What a reset hands back is either the same bytes with their fence completed, or bytes behind
      everything used so far. */
  lemma {:induction false} ResetOutcome(p: Place, arena: State, b: Backend, o: Obj, nbytes: nat, allow: bool)
    requires Sound(p.capacity, arena) && ResetOrRealloc(p, arena, b, o, nbytes, allow).Some?
    ensures var r := ResetOrRealloc(p, arena, b, o, nbytes, allow).value;
            && Sound(p.capacity, r.arena) && r.obj.lastUse == 0 && b.completed <= r.backend.completed
            && arena.offset <= r.arena.offset && r.backend.next == b.next
            && r.arena.generation == arena.generation == r.obj.generation && r.obj.End() <= p.capacity
            && (r.moved ==>
                  && arena.offset <= r.obj.offset && r.obj.End() <= r.arena.offset && r.obj.nbytes == nbytes > 0)
            && (!r.moved ==>
                  && r.arena == arena && r.obj == o.(lastUse := 0)
                  && o.lastUse <= r.backend.completed && nbytes <= o.nbytes)
  {
    if NewSpan(p, arena, nbytes).Some? {
      NewSpanFresh(p, arena, nbytes);
    }
  }

  /** A reset that succeeds moves the object exactly when it has to grow or, where that is allowed, when it is
      in flight; it waits exactly when the object is in flight and must not move; and it fails exactly when
      the object is stale or a span it needs is not granted. */
  lemma {:induction false} ResetMoves(p: Place, arena: State, b: Backend, o: Obj, nbytes: nat, allow: bool)
    ensures var r, inFlight := ResetOrRealloc(p, arena, b, o, nbytes, allow), o.lastUse > b.completed;
            && (r.Some? ==>
              && (r.value.moved <==> nbytes > o.nbytes || (inFlight && allow))
              && (inFlight && !allow ==> r.value.backend == Backend(b.next, o.lastUse, b.waits + 1))
              && (!inFlight || allow ==> r.value.backend == b)
              && (r.value.moved ==> NewSpan(p, arena, nbytes) == Some((r.value.arena, r.value.obj))))
            && (r.None? <==>
              !LiveObj(p, arena, o)
              || ((nbytes > o.nbytes || (inFlight && allow)) && NewSpan(p, arena, nbytes).None?))
  {
  }

  /** The use that an object's fence stands for. */
  ghost predicate HasUse(w: World, i: nat)
    requires i < |w.objs|
  {
    Use(w.objs[i].offset, w.objs[i].End(), w.objs[i].lastUse) in w.uses
  }

  ghost predicate Good(p: Place, w: World) {
    && LaidOut(p, w) && Guarded(w)
    && (forall k :: 0 <= k < |w.uses| ==> w.uses[k].fence <= w.backend.next)
    && (forall i :: 0 <= i < |w.objs| ==> w.objs[i].lastUse != 0 ==> HasUse(w, i))
    && (forall i :: 0 <= i < |w.objs| ==> LiveObj(p, w.arena, w.objs[i]))
  }

  lemma {:induction false} CreateKeeps(p: Place, w: World, nameLength: nat, bytes: nat)
    requires Good(p, w) && Step(p, w, CreateObj(nameLength, bytes)).Some?
    ensures Good(p, Step(p, w, CreateObj(nameLength, bytes)).value)
  {
    CreateFresh(p, w.arena, nameLength, bytes);
  }

  lemma {:induction false} MarkCovers(p: Place, w: World, i: nat, fence: nat)
    requires Good(p, w) && i < |w.objs| && 0 < fence && Covers(w, i, fence)
    ensures LaidOut(p, Step(p, w, MarkUsed(i, fence)).value) && Guarded(Step(p, w, MarkUsed(i, fence)).value)
  {
    var next := Step(p, w, MarkUsed(i, fence)).value;
    forall k, j | 0 <= k < |next.uses| && 0 <= j < |next.objs| && Overlaps(next.uses[k], next.objs[j])
      ensures next.uses[k].fence <= next.objs[j].lastUse || next.uses[k].fence <= next.backend.completed
    {
      if k < |w.uses| {
        assert Overlaps(w.uses[k], w.objs[j]);
      }
    }
  }

  lemma {:induction false} MarkKeeps(p: Place, w: World, i: nat, fence: nat)
    requires Good(p, w) && Step(p, w, MarkUsed(i, fence)).Some? && InOrder(w, MarkUsed(i, fence))
    ensures Good(p, Step(p, w, MarkUsed(i, fence)).value)
  {
    MarkCovers(p, w, i, fence);
    var next := Step(p, w, MarkUsed(i, fence)).value;
    forall j | 0 <= j < |next.objs| && next.objs[j].lastUse != 0
      ensures HasUse(next, j)
    {
      if j == i {
        assert next.uses[|w.uses|] == Use(next.objs[j].offset, next.objs[j].End(), fence);
      } else {
        assert HasUse(w, j);
      }
    }
  }

  lemma {:induction false} ResetLayout(p: Place, w: World, j: nat, size: nat, allow: bool)
    requires Good(p, w) && Step(p, w, ResetObj(j, size, allow)).Some?
    ensures LaidOut(p, Step(p, w, ResetObj(j, size, allow)).value)
  {
    ResetOutcome(p, w.arena, w.backend, w.objs[j], size, allow);
    var next := Step(p, w, ResetObj(j, size, allow)).value;
    assert forall i :: 0 <= i < |w.objs| && i != j ==> next.objs[i] == w.objs[i];
  }

  lemma {:induction false} ResetIdle(p: Place, w: World, j: nat, size: nat, allow: bool)
    requires LaidOut(p, w) && Guarded(w) && Step(p, w, ResetObj(j, size, allow)).Some?
    ensures var next := Step(p, w, ResetObj(j, size, allow)).value; Idle(next, next.objs[j])
  {
    ResetOutcome(p, w.arena, w.backend, w.objs[j], size, allow);
    var next := Step(p, w, ResetObj(j, size, allow)).value;
    forall k | 0 <= k < |w.uses| && Overlaps(next.uses[k], next.objs[j])
      ensures next.uses[k].fence <= next.backend.completed
    {
      assert Overlaps(w.uses[k], w.objs[j]);
    }
  }

  lemma {:induction false} ResetGuards(p: Place, w: World, j: nat, size: nat, allow: bool)
    requires Good(p, w) && Step(p, w, ResetObj(j, size, allow)).Some?
    ensures Guarded(Step(p, w, ResetObj(j, size, allow)).value)
  {
    ResetOutcome(p, w.arena, w.backend, w.objs[j], size, allow);
    ResetIdle(p, w, j, size, allow);
    var next := Step(p, w, ResetObj(j, size, allow)).value;
    forall k, i | 0 <= k < |next.uses| && 0 <= i < |next.objs| && Overlaps(next.uses[k], next.objs[i])
      ensures next.uses[k].fence <= next.objs[i].lastUse || next.uses[k].fence <= next.backend.completed
    {
      if i != j {
        assert Overlaps(w.uses[k], w.objs[i]);
      }
    }
  }

  lemma {:induction false} ResetKeeps(p: Place, w: World, j: nat, size: nat, allow: bool)
    requires Good(p, w) && Step(p, w, ResetObj(j, size, allow)).Some?
    ensures var next := Step(p, w, ResetObj(j, size, allow)).value;
            Good(p, next) && Idle(next, next.objs[j])
  {
    ResetLayout(p, w, j, size, allow);
    ResetIdle(p, w, j, size, allow);
    ResetGuards(p, w, j, size, allow);
    ResetOutcome(p, w.arena, w.backend, w.objs[j], size, allow);
    var next := Step(p, w, ResetObj(j, size, allow)).value;
    forall i | 0 <= i < |next.objs| && next.objs[i].lastUse != 0
      ensures HasUse(next, i)
    {
      assert HasUse(w, i);
    }
  }

  lemma {:induction false} BackendKeeps(p: Place, w: World, op: Op)
    requires Good(p, w) && (op == NewFence || op == Complete || op.Wait?)
    ensures Good(p, Step(p, w, op).value)
  {
    var next := Step(p, w, op).value;
    assert next.objs == w.objs && next.uses == w.uses;
    forall i | 0 <= i < |next.objs| && next.objs[i].lastUse != 0
      ensures HasUse(next, i)
    {
      assert HasUse(w, i);
    }
  }

  lemma {:induction false} StepKeeps(p: Place, w: World, op: Op)
    requires Good(p, w) && InOrder(w, op) && Step(p, w, op).Some?
    ensures Good(p, Step(p, w, op).value)
  {
    match op
    case CreateObj(nameLength, bytes) => CreateKeeps(p, w, nameLength, bytes);
    case MarkUsed(i, fence) => MarkKeeps(p, w, i, fence);
    case ResetObj(j, size, allow) => ResetKeeps(p, w, j, size, allow);
    case _ => BackendKeeps(p, w, op);
  }

  // ---------- runs ----------

  const EMPTY: World := World(INITIAL, [], [], Backend(0, 0, 0))

  function RunOps(p: Place, ops: seq<Op>): Option<World> {
    if ops == [] then Some(EMPTY)
    else
      match RunOps(p, ops[..|ops| - 1])
      case Some(w) => Step(p, w, ops[|ops| - 1])
      case None => None
  }

  ghost predicate RunInOrder(p: Place, ops: seq<Op>) {
    ops != [] ==>
      && RunInOrder(p, ops[..|ops| - 1])
      && (RunOps(p, ops[..|ops| - 1]).Some? ==> InOrder(RunOps(p, ops[..|ops| - 1]).value, ops[|ops| - 1]))
  }

  /** Over any run of creations, marks in order, resets, reallocations, completions and waits: objects
      stay apart, and every use still in flight is covered by the fence of the object on its bytes. */
  lemma {:induction false} RunGood(p: Place, ops: seq<Op>)
    requires RunInOrder(p, ops) && RunOps(p, ops).Some?
    ensures Good(p, RunOps(p, ops).value)
  {
    if ops != [] {
      RunGood(p, ops[..|ops| - 1]);
      StepKeeps(p, RunOps(p, ops[..|ops| - 1]).value, ops[|ops| - 1]);
    }
  }

  /** After any such run, a reset or reallocation never hands back bytes that are still in flight. */
  lemma {:induction false} ResetNeverInFlight(p: Place, ops: seq<Op>, j: nat, size: nat, allow: bool)
    requires RunInOrder(p, ops) && RunOps(p, ops).Some? && Step(p, RunOps(p, ops).value, ResetObj(j, size, allow)).Some?
    ensures var next := Step(p, RunOps(p, ops).value, ResetObj(j, size, allow)).value;
            j < |next.objs| && Idle(next, next.objs[j])
  {
    RunGood(p, ops);
    ResetKeeps(p, RunOps(p, ops).value, j, size, allow);
  }

  // ---------- marks out of order ----------

  /** Resetting object `i` in place right after a mark: the bytes it hands back are idle. */
  ghost predicate SafeReset(p: Place, w: World, i: nat, fence: nat) {
    var marked := Step(p, w, MarkUsed(i, fence));
    marked.Some? && i < |marked.value.objs| &&
    var next := Step(p, marked.value, ResetObj(i, marked.value.objs[i].nbytes, false));
    next.Some? && i < |next.value.objs| && Idle(next.value, next.value.objs[i])
  }

  /** The same reset, with everything recorded completed after it: the bytes are still idle. */
  ghost predicate SafeCompletion(p: Place, w: World, i: nat, fence: nat) {
    var marked := Step(p, w, MarkUsed(i, fence));
    marked.Some? && i < |marked.value.objs| &&
    var next := Step(p, marked.value, ResetObj(i, marked.value.objs[i].nbytes, false));
    next.Some? && i < |next.value.objs| &&
    var done := Step(p, next.value, Complete);
    done.Some? && i < |done.value.objs| && Idle(done.value, done.value.objs[i])
  }

  /** A reset right after a mark is safe if and only if the mark covers the one it replaces. */
  lemma {:induction false} ResetExact(p: Place, w: World, i: nat, fence: nat)
    requires Good(p, w) && i < |w.objs| && 0 < fence
    ensures SafeReset(p, w, i, fence) <==> Covers(w, i, fence)
    ensures !Covers(w, i, fence) ==> !Guarded(Step(p, w, MarkUsed(i, fence)).value)
  {
    var marked := Step(p, w, MarkUsed(i, fence)).value;
    var next := Step(p, marked, ResetObj(i, marked.objs[i].nbytes, false)).value;
    if Covers(w, i, fence) {
      MarkCovers(p, w, i, fence);
      ResetIdle(p, marked, i, marked.objs[i].nbytes, false);
    } else {
      assert HasUse(w, i);
      var k :| 0 <= k < |w.uses| && w.uses[k] == Use(w.objs[i].offset, w.objs[i].End(), w.objs[i].lastUse);
      assert marked.uses[k] == w.uses[k] && next.uses[k] == w.uses[k];
      assert Overlaps(marked.uses[k], marked.objs[i]) && Overlaps(next.uses[k], next.objs[i]);
    }
  }

  /** It stays safe when everything recorded completes if and only if the mark names a recorded fence. */
  lemma {:induction false} CompletionExact(p: Place, w: World, i: nat, fence: nat)
    requires Good(p, w) && i < |w.objs| && 0 < fence
    ensures SafeCompletion(p, w, i, fence) <==> fence <= w.backend.next
    ensures fence > w.backend.next ==> !Good(p, Step(p, w, MarkUsed(i, fence)).value)
  {
    var marked := Step(p, w, MarkUsed(i, fence)).value;
    var next := Step(p, marked, ResetObj(i, marked.objs[i].nbytes, false)).value;
    var done := Step(p, next, Complete).value;
    var k := |w.uses|;
    assert marked.uses[k].fence == fence && done.uses == marked.uses && done.backend.completed == w.backend.next;
    assert Overlaps(done.uses[k], done.objs[i]);
    assert forall m :: 0 <= m < k ==> done.uses[m] == w.uses[m];
  }

  /** The condition on marks is exact, in every good state: a mark keeps the state good if and only if it
      covers the mark it replaces and names a recorded fence. A reset right after it is safe if and only
      if it covers, and stays safe after a completion if and only if the fence is recorded. */
  lemma {:induction false} MarkOrderExact(p: Place, w: World, i: nat, fence: nat)
    requires Good(p, w) && i < |w.objs| && 0 < fence
    ensures Good(p, Step(p, w, MarkUsed(i, fence)).value) <==> Covers(w, i, fence) && fence <= w.backend.next
    ensures SafeReset(p, w, i, fence) <==> Covers(w, i, fence)
    ensures SafeCompletion(p, w, i, fence) <==> fence <= w.backend.next
  {
    ResetExact(p, w, i, fence);
    CompletionExact(p, w, i, fence);
    if Covers(w, i, fence) && fence <= w.backend.next {
      MarkKeeps(p, w, i, fence);
    }
  }

  /** Two fences are recorded, an object is marked with the second and then with the first, and reset. */
  function OutOfOrder(): seq<Op> {
    [CreateObj(0, 64), NewFence, NewFence, MarkUsed(0, 2), MarkUsed(0, 1), ResetObj(0, 64, false)]
  }

  lemma {:induction false} RunSnoc(p: Place, ops: seq<Op>, op: Op)
    requires RunOps(p, ops).Some?
    ensures RunOps(p, ops + [op]) == Step(p, RunOps(p, ops).value, op)
  {
    assert (ops + [op])[..|ops|] == ops;
  }

  lemma {:induction false} AlignsTo64(base: nat, q: nat)
    requires base == 64 * q
    ensures AlignedOffset(base, 1, 64) == 64
  {
    AlignUpIsLeast(base + 1, 64);
    assert (base + 64) % 64 == 0;
  }

  /** The run ends with the bytes of fence 2 handed back while fence 2 is in flight. */
  lemma {:induction false} OutOfOrderLoses(p: Place)
    requires p.base % 64 == 0 && p.capacity >= 128
    ensures var w := RunOps(p, OutOfOrder());
            w.Some? && |w.value.objs| == 1 && w.value.backend.completed == 1
            && Use(64, 128, 2) in w.value.uses && w.value.objs[0] == Obj(64, 64, 1, 0)
              && !Idle(w.value, w.value.objs[0])
  {
    var create := CreateObj(0, 64);
    var a := [create];
    var b := a + [NewFence];
    var c := b + [NewFence];
    var d := c + [MarkUsed(0, 2)];
    var e := d + [MarkUsed(0, 1)];
    var f := e + [ResetObj(0, 64, false)];
    assert f == OutOfOrder() && [] + [create] == a;
    AlignsTo64(p.base, p.base / 64);
    AlignUpIsLeast(p.base, 1);
    RunSnoc(p, [], create);
    RunSnoc(p, a, NewFence);
    RunSnoc(p, b, NewFence);
    RunSnoc(p, c, MarkUsed(0, 2));
    RunSnoc(p, d, MarkUsed(0, 1));
    RunSnoc(p, e, ResetObj(0, 64, false));
    var w := RunOps(p, f).value;
    assert w.uses[0] == Use(64, 128, 2) && Overlaps(w.uses[0], w.objs[0]);
  }
  /** An object is marked with a fence that nobody recorded, and reset; then everything recorded completes. */
  function Unrecorded(): seq<Op> {
    [CreateObj(0, 64), MarkUsed(0, 1), ResetObj(0, 64, false), Complete]
  }

  /** Completing everything takes the completed fence back to 0: the bytes that the reset handed back
      count as in flight again. */
  lemma {:induction false} UnrecordedLoses(p: Place)
    requires p.base % 64 == 0 && p.capacity >= 128
    ensures var w := RunOps(p, Unrecorded());
            w.Some? && |w.value.objs| == 1 && w.value.backend.completed == 0
            && Use(64, 128, 1) in w.value.uses && w.value.objs[0] == Obj(64, 64, 1, 0)
              && !Idle(w.value, w.value.objs[0])
  {
    var create := CreateObj(0, 64);
    var a := [create];
    var b := a + [MarkUsed(0, 1)];
    var c := b + [ResetObj(0, 64, false)];
    var d := c + [Complete];
    assert d == Unrecorded() && [] + [create] == a;
    AlignsTo64(p.base, p.base / 64);
    AlignUpIsLeast(p.base, 1);
    RunSnoc(p, [], create);
    RunSnoc(p, a, MarkUsed(0, 1));
    RunSnoc(p, b, ResetObj(0, 64, false));
    RunSnoc(p, c, Complete);
    var w := RunOps(p, d).value;
    assert w.uses[0] == Use(64, 128, 1) && Overlaps(w.uses[0], w.objs[0]);
  }
}
