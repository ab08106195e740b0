/** The context object: backend, ring arenas and the scope protocol as the code runs them. */
module Context {
  import opened Arith
  import opened Seqs
  import opened Arenas
  import opened Rings
  import opened Scopes

  class FenceBackend {
    var nextFence: nat
    var completedFence: nat
    var waits: nat

    ghost function Model(): Rings.Backend
      reads this
    {
      Backend(nextFence, completedFence, waits)
    }

    constructor ()
      ensures Model() == Backend(0, 0, 0)
    {
      nextFence, completedFence, waits := 0, 0, 0;
    }

    /** `fake_backend_record`. */
    method RecordNext() returns (fence: nat)
      requires nextFence + 1 < WORD
      modifies this
      ensures Model() == Record(old(Model())) && fence == nextFence
    {
      nextFence := nextFence + 1;
      fence := nextFence;
    }

    /** `fake_backend_wait_until`. */
    method AwaitFence(fence: nat)
      modifies this
      ensures Model() == WaitUntil(old(Model()), fence)
    {
      if fence > completedFence {
        completedFence := fence;
        waits := waits + 1;
      }
    }

    /** `fake_backend_complete_all`. */
    method Finish()
      modifies this
      ensures Model() == CompleteAll(old(Model()))
    {
      completedFence := nextFence;
    }
  }

  class RingArena {
    const slots: seq<Arena>
    const slotFence: array<nat>
    var current: int
    var waits: nat
    /** The ring as the specification sees it. */
    ghost var model: Rings.Ring

    ghost predicate Valid()
      reads this, slotFence, slots
    {
      && |slots| == slotFence.Length > 0
      && -1 <= current < |slots|
      && (forall i, j :: 0 <= i < j < |slots| ==> slots[i] != slots[j])
      && (forall i :: 0 <= i < |slots| ==> slots[i].Valid() && !slots[i].frozen)
      && |model.generations| == |slots|
      && (forall i :: 0 <= i < |slots| ==> slots[i].generation == model.generations[i])
      && model.fences == slotFence[..] && model.current == current && model.waits == waits
    }

    /** No slot's generation and no fence is about to overflow 64 bits. */
    ghost predicate Room()
      reads this
    {
      && (forall i :: 0 <= i < |model.generations| ==> model.generations[i] + 1 < WORD)
      && (forall i :: 0 <= i < |model.fences| ==> model.fences[i] < WORD - 1)
    }

    /** `ring_init`: one arena per base address. */
    constructor (bases: seq<nat>, capacity: nat)
      requires bases != [] && capacity <= 0x4000_0000_0000_0000
      ensures Valid() && fresh(slotFence) && fresh(slots) && model == NewRing(|bases|)
    {
      var made: seq<Arena> := [];
      for i := 0 to |bases|
        invariant |made| == i && fresh(made)
        invariant forall j, k :: 0 <= j < k < i ==> made[j] != made[k]
        invariant forall j :: 0 <= j < i ==> made[j].Valid() && made[j].generation == 1 && !made[j].frozen
      {
        var arena := new Arena(bases[i], capacity);
        made := made + [arena];
      }
      slots := made;
      slotFence := new nat[|bases|](i => 0);
      current, waits := -1, 0;
      model := NewRing(|bases|);
      new;
      assert slotFence[..] == seq(|bases|, i => 0);
    }

    /** `ring_oldest_busy_slot`. */
    method OldestBusySlot() returns (best: int)
      requires Valid() && Room()
      ensures best == OldestBusy(model.fences, |model.fences|)
    {
      best := -1;
      var bestFence := WORD - 1;
      for i := 0 to slotFence.Length
        invariant best == OldestBusy(model.fences, i)
        invariant bestFence == if best < 0 then WORD - 1 else slotFence[best]
      {
        var f := slotFence[i];
        assert f == model.fences[i];
        if f != 0 && f < bestFence {
          bestFence := f;
          best := i;
        }
      }
    }

    /** The search of `ring_select_slot`. */
    method FindFree(completed: nat) returns (found: Option<nat>)
      requires Valid()
      ensures found == FirstFree(model.fences, completed, Start(model), 0)
    {
      var start := if current < 0 then 0 else (current + 1) % |slots|;
      WrapIsMod(if current < 0 then 0 else current + 1, |slots|);
      var attempt := 0;
      while attempt < |slots|
        invariant 0 <= attempt <= |slots|
        invariant FirstFree(model.fences, completed, start, attempt) == FirstFree(model.fences, completed, start, 0)
      {
        WrapIsMod(start + attempt, |slots|);
        var i := (start + attempt) % |slots|;
        if slotFence[i] <= completed {
          return Some(i);
        }
        attempt := attempt + 1;
      }
      found := None;
    }

    /** Take a slot: clear its fence and reset its arena. */
    method Claim(s: nat)
      requires Valid() && s < |slots| && Room()
      modifies this`current, this`model, slotFence, slots[s]
      ensures Valid() && model == Take(old(model), s)
    {
      current := s;
      slotFence[s] := 0;
      slots[s].ResetArena();
      model := Take(model, s);
    }

    /** `ring_select_slot`. */
    method SelectSlot(backend: FenceBackend) returns (s: nat)
      requires Valid() && Room()
      modifies this, slotFence, slots, backend
      ensures Valid() && (model, backend.Model(), s) == Select(old(model), old(backend.Model())) && s == current
    {
      var found := FindFree(backend.completedFence);
      if found.Some? {
        Claim(found.value);
        return found.value;
      }
      s := ClaimOldest(backend);
    }

    /** The exhausted ring: wait only for the oldest slot in flight. */
    method ClaimOldest(backend: FenceBackend) returns (s: nat)
      requires Valid() && Room() && FirstFree(model.fences, backend.completedFence, Start(model), 0).None?
      modifies this, slotFence, slots, backend
      ensures Valid() && (model, backend.Model(), s) == Select(old(model), old(backend.Model())) && s == current
    {
      SelectExhausted(model, backend.Model());
      s := OldestBusySlot();
      backend.AwaitFence(slotFence[s]);
      Claim(s);
      CountWait();
    }

    method CountWait()
      requires Valid()
      modifies this`waits, this`model
      ensures Valid() && model == old(model).(waits := old(model).waits + 1) && current == old(current)
    {
      waits := waits + 1;
      model := model.(waits := waits);
    }

    /** `ring_record_fence`. */
    method RecordSlotFence(fence: nat)
      requires Valid() && current >= 0
      modifies this`model, slotFence
      ensures Valid() && model == RecordFence(old(model), fence)
    {
      slotFence[current] := fence;
      model := RecordFence(model, fence);
    }
  }

  /** What an exhausted ring selects. */
  lemma {:induction false} SelectExhausted(r: Ring, b: Backend)
    requires r.Valid() && FirstFree(r.fences, b.completed, Start(r), 0).None?
    ensures var oldest := OldestBusy(r.fences, |r.fences|);
            && oldest >= 0
            && Select(r, b) == (Take(r, oldest).(waits := r.waits + 1), WaitUntil(b, r.fences[oldest]), oldest)
  {
    AllBusy(r.fences, b.completed, Start(r));
    assert r.fences[0] != 0;
  }

  lemma {:induction false} WrapIsMod(x: nat, n: nat)
    requires n > 0 && x < 2 * n
    ensures x % n == Wrap(x, n)
  {
    if x < n {
      DivUnique(x, n, 0, x);
    } else {
      DivUnique(x, n, 1, x - n);
    }
  }

  datatype Mode = NoScope | Train | Infer

  class GdContext {
    const params: Arena
    const state: Arena
    const scratch: RingArena
    const data: RingArena
    const backend: FenceBackend
    var mode: Mode
    var inScope: bool
    var scratchSlot: int
    var dataSlot: int
    var lastScopeFence: nat

    /** Nothing is shared between the parts. */
    ghost predicate Separate() {
      && scratch != data && scratch.slotFence != data.slotFence
      && (forall i, j :: 0 <= i < |scratch.slots| && 0 <= j < |data.slots| ==> scratch.slots[i] != data.slots[j])
      && params !in scratch.slots && params !in data.slots
      && state !in scratch.slots && state !in data.slots && params != state
    }

    ghost predicate Valid()
      reads this, params, state, scratch, scratch.slotFence, scratch.slots, data, data.slotFence, data.slots
    {
      && Separate()
      && scratch.Valid() && data.Valid() && params.Valid() && state.Valid()
      && (inScope <==> mode != NoScope)
      && (inScope ==> scratch.current >= 0 && data.current >= 0)
    }

    ghost function Model(): Ctx
      reads this, scratch, data, backend
    {
      Ctx(scratch.model, data.model, backend.Model(), inScope)
    }

    /** No counter is about to overflow 64 bits. */
    ghost predicate Room()
      reads scratch, data, backend
    {
      scratch.Room() && data.Room() && backend.nextFence + 1 < WORD
    }

    /** `ctx_init`; the base addresses come from the allocator. */
    constructor (paramsBase: nat, stateBase: nat, scratchBases: seq<nat>, dataBases: seq<nat>)
      requires |scratchBases| == 2 && |dataBases| == 2
      ensures Valid() && fresh({params, state, scratch, data, backend}) && Model() == Initial(2, 2) && mode == NoScope
          && lastScopeFence == 0
      ensures params.Model() == INITIAL && state.Model() == INITIAL
      ensures params.capacity == 1024 * 1024 && state.capacity == 512 * 1024
    {
      params := new Arena(paramsBase, 1024 * 1024);
      state := new Arena(stateBase, 512 * 1024);
      scratch := new RingArena(scratchBases, 128 * 1024);
      data := new RingArena(dataBases, 64 * 1024);
      backend := new FenceBackend();
      mode, inScope, scratchSlot, dataSlot, lastScopeFence := NoScope, false, 0, 0, 0;
    }

    /** `gd_begin`. */
    method Begin(mode: Mode)
      requires Valid() && Room() && !inScope && mode != NoScope
      modifies this, scratch, data, backend, scratch.slotFence, data.slotFence, scratch.slots, data.slots
      ensures Valid() && Model() == BeginScope(old(Model())) && this.mode == mode
      ensures SlotsChosen() && lastScopeFence == old(lastScopeFence)
    {
      SelectBoth();
      Enter(mode);
    }

    /** A slot of each ring. */
    method SelectBoth()
      requires Valid() && Room() && !inScope
      modifies `scratchSlot, `dataSlot, scratch, data, backend
      modifies scratch.slotFence, data.slotFence, scratch.slots, data.slots
      ensures Valid() && SlotsChosen() && scratch.current >= 0 && data.current >= 0
      ensures Ctx(scratch.model, data.model, backend.Model(), true) == BeginScope(old(Model()))
    {
      SelectScratch();
      ghost var taken := scratch.model;
      SelectData();
      assert scratch.model == taken;
    }

    method Enter(mode: Mode)
      requires Valid() && mode != NoScope && scratch.current >= 0 && data.current >= 0 && SlotsChosen()
      modifies this`mode, this`inScope
      ensures Valid() && inScope && this.mode == mode && SlotsChosen()
    {
      this.mode := mode;
      inScope := true;
    }

    /** The chosen slots are remembered. */
    ghost predicate SlotsChosen()
      reads `scratchSlot, `dataSlot, scratch`current, data`current
    {
      scratchSlot == scratch.current && dataSlot == data.current
    }

    method SelectScratch()
      requires Valid() && Room()
      modifies this`scratchSlot, scratch, backend, scratch.slotFence, scratch.slots
      ensures Valid() && data.Room() && scratchSlot == scratch.current >= 0
      ensures (scratch.model, backend.Model(), scratch.current) == Select(old(scratch.model), old(backend.Model()))
    {
      scratchSlot := scratch.SelectSlot(backend);
      assert data.Valid();
      assert params.Valid() && state.Valid();
    }

    method SelectData()
      requires Valid() && data.Room() && scratchSlot == scratch.current
      modifies this`dataSlot, data, backend, data.slotFence, data.slots
      ensures Valid() && SlotsChosen() && data.current >= 0
      ensures (data.model, backend.Model(), data.current) == Select(old(data.model), old(backend.Model()))
    {
      dataSlot := data.SelectSlot(backend);
      assert scratch.Valid();
      assert params.Valid() && state.Valid();
    }

    /** `gd_end`. */
    method End()
      requires Valid() && Room() && inScope
      modifies this, backend, scratch`model, data`model, scratch.slotFence, data.slotFence
      ensures Valid() && Model() == EndScope(old(Model())) && lastScopeFence == backend.nextFence
    {
      var fence := backend.RecordNext();
      RecordBoth(fence);
      Leave(fence);
    }

    method RecordBoth(fence: nat)
      requires Valid() && inScope
      modifies scratch`model, data`model, scratch.slotFence, data.slotFence
      ensures Valid()
      ensures scratch.model == RecordFence(old(scratch.model), fence)
          && data.model == RecordFence(old(data.model), fence)
    {
      scratch.RecordSlotFence(fence);
      data.RecordSlotFence(fence);
    }

    method Leave(fence: nat)
      requires Valid() && inScope
      modifies this`mode, this`inScope, this`lastScopeFence
      ensures Valid() && !inScope && lastScopeFence == fence
    {
      lastScopeFence := fence;
      mode := NoScope;
      inScope := false;
    }

    /** `ctx_scratch`: the arena of the current scratch slot. */
    function ScratchArena(): (a: Arena)
      requires Valid() && inScope
      reads this, params, state, scratch, scratch.slotFence, scratch.slots, data, data.slotFence, data.slots
      ensures a.Valid() && Live(scratch.model, Descriptor(scratch.current, a.generation))
    {
      scratch.slots[scratch.current]
    }

    /** `ctx_data`. */
    function DataArena(): (a: Arena)
      requires Valid() && inScope
      reads this, params, state, scratch, scratch.slotFence, scratch.slots, data, data.slotFence, data.slots
      ensures a.Valid() && Live(data.model, Descriptor(data.current, a.generation))
    {
      data.slots[data.current]
    }
  }
}
