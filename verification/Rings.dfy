/** Rings of arenas whose slots are guarded by backend fences: the specification. */
module Rings {
  import opened Arith
  import opened Seqs

  // ---------- backend ----------

  datatype Backend = Backend(next: nat, completed: nat, waits: nat)

  function Record(b: Backend): Backend { b.(next := b.next + 1) }

  function WaitUntil(b: Backend, fence: nat): Backend {
    if fence > b.completed then b.(completed := fence, waits := b.waits + 1) else b
  }

  function CompleteAll(b: Backend): Backend { b.(completed := b.next) }

  // ---------- selecting a slot ----------

  /** Fence, reset count and position of a ring; fence 0 marks a slot nothing is waiting on. */
  datatype Ring = Ring(fences: seq<nat>, current: int, generations: seq<nat>, waits: nat) {
    ghost predicate Valid() {
      |fences| == |generations| > 0 && -1 <= current < |fences|
    }
  }

  /** `x % n` for `x` below `2 * n`. */
  function Wrap(x: nat, n: nat): nat
    requires x < 2 * n
  {
    if x < n then x else x - n
  }

  function Start(r: Ring): (s: nat)
    requires r.Valid()
    ensures s < |r.fences|
  {
    if r.current < 0 then 0 else Wrap(r.current + 1, |r.fences|)
  }

  /** The first slot from `start` on, going round once, whose fence has completed. */
  function FirstFree(fences: seq<nat>, completed: nat, start: nat, attempt: nat): (s: Option<nat>)
    requires start < |fences| && attempt <= |fences|
    ensures s.Some? ==> s.value < |fences| && fences[s.value] <= completed
    decreases |fences| - attempt
  {
    if attempt == |fences| then None
    else if fences[Wrap(start + attempt, |fences|)] <= completed then Some(Wrap(start + attempt, |fences|))
    else FirstFree(fences, completed, start, attempt + 1)
  }

  /** `ring_oldest_busy_slot` over the first `n` slots. */
  function OldestBusy(fences: seq<nat>, n: nat): (best: int)
    requires n <= |fences|
    ensures -1 <= best < n
    ensures best >= 0 ==> fences[best] != 0 && forall s :: 0 <= s < n && fences[s] != 0 ==> fences[best] <= fences[s]
    ensures best < 0 ==> forall s :: 0 <= s < n ==> fences[s] == 0
  {
    if n == 0 then -1
    else
      var best, f := OldestBusy(fences, n - 1), fences[n - 1];
      if f != 0 && (best < 0 || f < fences[best]) then n - 1 else best
  }

  lemma {:induction false} NoneFree(fences: seq<nat>, completed: nat, start: nat, attempt: nat, a: nat)
    requires start < |fences| && attempt <= a < |fences| && FirstFree(fences, completed, start, attempt).None?
    ensures fences[Wrap(start + a, |fences|)] > completed
    decreases |fences| - attempt
  {
    if attempt < a {
      NoneFree(fences, completed, start, attempt + 1, a);
    }
  }

  /** When the search finds nothing, every slot is in flight. */
  lemma {:induction false} AllBusy(fences: seq<nat>, completed: nat, start: nat)
    requires start < |fences| && FirstFree(fences, completed, start, 0).None?
    ensures forall s :: 0 <= s < |fences| ==> fences[s] > completed
  {
    forall s | 0 <= s < |fences|
      ensures fences[s] > completed
    {
      var a := if s >= start then s - start else s + |fences| - start;
      NoneFree(fences, completed, start, 0, a);
    }
  }

  /** A slot is taken: its fence is cleared and its arena reset. */
  function Take(r: Ring, s: nat): Ring
    requires r.Valid() && s < |r.fences|
  {
    Ring(r.fences[s := 0], s, r.generations[s := r.generations[s] + 1], r.waits)
  }

  /** `ring_select_slot`: the first free slot, or the oldest busy one after waiting for it. */
  function Select(r: Ring, b: Backend): (result: (Ring, Backend, nat))
    requires r.Valid()
    ensures result.2 < |r.fences|
    ensures result.0.Valid() && |result.0.fences| == |r.fences| && result.0.current == result.2
  {
    match FirstFree(r.fences, b.completed, Start(r), 0)
    case Some(s) => (Take(r, s), b, s)
    case None =>
      AllBusy(r.fences, b.completed, Start(r));
      var oldest := OldestBusy(r.fences, |r.fences|);
      assert r.fences[0] != 0;
      (Take(r, oldest).(waits := r.waits + 1), WaitUntil(b, r.fences[oldest]), oldest)
  }

  /** In any state whatever: the selected slot's fence has completed when the slot is reset, no other
      slot is touched, and the backend waits at most for the oldest fence of the ring. */
  lemma {:induction false} SelectSafe(r: Ring, b: Backend)
    requires r.Valid()
    ensures var (next, after, s) := Select(r, b);
            && r.fences[s] <= after.completed
            && next.fences == r.fences[s := 0] && next.generations == r.generations[s := r.generations[s] + 1]
            && after.next == b.next
            && (after == b ||
                (after.completed == r.fences[s] && forall t ::
                  0 <= t < |r.fences|
                  ==> b.completed < r.fences[s] <= r.fences[t]))
  {
    if FirstFree(r.fences, b.completed, Start(r), 0).None? {
      AllBusy(r.fences, b.completed, Start(r));
    }
  }

  /** The `t`-th slot behind the current one, round the ring. */
  function Behind(r: Ring, t: nat): (s: nat)
    requires r.Valid() && t < |r.fences|
    ensures s < |r.fences|
  {
    if r.current < 0 then t
    else if r.current + 1 + t < |r.fences| then r.current + 1 + t
    else r.current + 1 + t - |r.fences|
  }

  lemma {:induction false} FirstFreeExact(r: Ring, b: Backend, attempt: nat) returns (a: nat)
    requires r.Valid() && attempt <= |r.fences|
    ensures attempt <= a <= |r.fences| && forall t :: attempt <= t < a ==> r.fences[Behind(r, t)] > b.completed
    ensures FirstFree(r.fences, b.completed, Start(r), attempt)
            == if a < |r.fences| then Some(Behind(r, a)) else None
    ensures a < |r.fences| ==> r.fences[Behind(r, a)] <= b.completed
    decreases |r.fences| - attempt
  {
    a := attempt;
    if attempt < |r.fences| {
      assert Wrap(Start(r) + attempt, |r.fences|) == Behind(r, attempt);
      if r.fences[Behind(r, attempt)] > b.completed {
        a := FirstFreeExact(r, b, attempt + 1);
      }
    }
  }

  lemma {:induction false} OldestIsFirst(fences: seq<nat>, n: nat)
    requires n <= |fences|
    ensures var best := OldestBusy(fences, n);
            best >= 0 ==> forall t :: 0 <= t < best && fences[t] != 0 ==> fences[t] > fences[best]
  {
    if n > 0 {
      OldestIsFirst(fences, n - 1);
    }
  }

  /** The choice in any state: the first slot behind the current one whose fence has completed, without
      waiting; and when there is none, the first slot with the smallest fence, after waiting for it. */
  lemma {:induction false} SelectExact(r: Ring, b: Backend) returns (a: nat)
    requires r.Valid()
    ensures a <= |r.fences| && forall t :: 0 <= t < a ==> r.fences[Behind(r, t)] > b.completed
    ensures var (next, after, s) := Select(r, b);
            && (a < |r.fences| ==>
              s == Behind(r, a) && r.fences[s] <= b.completed && after == b && next.waits == r.waits)
            && (a == |r.fences| ==>
              && after == Backend(b.next, r.fences[s], b.waits + 1) && next.waits == r.waits + 1
              && (forall t :: 0 <= t < |r.fences| ==> b.completed < r.fences[s] <= r.fences[t])
              && (forall t :: 0 <= t < s ==> r.fences[s] < r.fences[t]))
  {
    a := FirstFreeExact(r, b, 0);
    if a == |r.fences| {
      AllBusy(r.fences, b.completed, Start(r));
      OldestIsFirst(r.fences, |r.fences|);
      assert r.fences[0] > b.completed;
    }
  }

  function RecordFence(r: Ring, fence: nat): Ring
    requires r.Valid() && r.current >= 0
  {
    r.(fences := r.fences[r.current := fence])
  }

  // ---------- which scope used which slot ----------

  /** `k % n`, one round at a time. */
  function Slot(k: nat, n: nat): (s: nat)
    requires n > 0
    ensures s < n
  {
    if k < n then k else Slot(k - n, n)
  }

  /** `k / n`, one round at a time. */
  function Round(k: nat, n: nat): nat
    requires n > 0
  {
    if k < n then 0 else 1 + Round(k - n, n)
  }

  lemma {:induction false} SlotIsRemainder(k: nat, n: nat)
    requires n > 0
    ensures Slot(k, n) == k % n && Round(k, n) == k / n
  {
    if k >= n {
      SlotIsRemainder(k - n, n);
      DivMod(k - n, n);
      NextRound(k, n, (k - n) / n, (k - n) % n);
    } else {
      DivUnique(k, n, 0, k);
    }
  }

  lemma {:induction false} NextRound(k: nat, n: nat, q: nat, r: nat)
    requires n <= k && r < n && k - n == q * n + r
    ensures k / n == q + 1 && k % n == r
  {
    assert (q + 1) * n == q * n + n;
    DivUnique(k, n, q + 1, r);
  }

  lemma {:induction false} SlotAdvances(k: nat, n: nat)
    requires n > 0
    ensures Slot(k + 1, n) == Wrap(Slot(k, n) + 1, n)
  {
    if k >= n {
      SlotAdvances(k - n, n);
    } else if k + 1 == n {
      assert Slot(0, n) == 0;
    }
  }

  /** Two scopes fewer than `n` apart never share a slot. */
  lemma {:induction false} SlotsDiffer(i: nat, j: nat, n: nat)
    requires n > 0 && i < j < i + n
    ensures Slot(i, n) != Slot(j, n)
  {
    if i >= n {
      SlotsDiffer(i - n, j - n, n);
    } else if j >= n {
      assert Slot(j - n, n) == j - n;
    }
  }

  /** The last scope before `k` that used slot `s`, or -1. */
  function LastScope(s: nat, k: nat, n: nat): int
    requires n > 0
  {
    if k == 0 then -1 else if Slot(k - 1, n) == s then k - 1 else LastScope(s, k - 1, n)
  }

  lemma {:induction false} LastScopeRange(s: nat, k: nat, n: nat)
    requires s < n
    ensures var j := LastScope(s, k, n);
            if k <= s then j == -1 else 0 <= j < k && k - n <= j && Slot(j, n) == s
  {
    if k > 0 {
      LastScopeRange(s, k - 1, n);
      var j := LastScope(s, k - 1, n);
      if Slot(k - 1, n) != s && 0 <= j && j == k - 1 - n {
        assert Slot(k - 1, n) == Slot(j, n);
      }
    }
  }

  /** The slot of scope `k` was last used by scope `k - n`. */
  lemma {:induction false} PreviousUser(k: nat, n: nat)
    requires n > 0
    ensures LastScope(Slot(k, n), k, n) == if k < n then -1 else k - n
  {
    var s := Slot(k, n);
    LastScopeRange(s, k, n);
    if k >= n {
      var j := LastScope(s, k, n);
      if k - n < j {
        SlotsDiffer(k - n, j, n);
      }
    }
  }

  /** How often slot `s` was used by the first `k` scopes. */
  function Uses(s: nat, k: nat, n: nat): nat
    requires n > 0
  {
    if k == 0 then 0 else Uses(s, k - 1, n) + (if Slot(k - 1, n) == s then 1 else 0)
  }

  lemma {:induction false} UsesMonotone(s: nat, j: nat, k: nat, n: nat)
    requires n > 0 && j <= k
    ensures Uses(s, j, n) <= Uses(s, k, n)
  {
    if j < k {
      UsesMonotone(s, j, k - 1, n);
    }
  }

  /** No use between scope `i` and scope `i + n`. */
  lemma {:induction false} UsesPause(i: nat, k: nat, n: nat)
    requires n > 0 && i < k <= i + n
    ensures Uses(Slot(i, n), k, n) == Uses(Slot(i, n), i, n) + 1
  {
    if i + 1 < k {
      UsesPause(i, k - 1, n);
      SlotsDiffer(i, k - 1, n);
    }
  }

  /** Scope `i` finds its slot used `i / n` times before. */
  lemma {:induction false} UsesBefore(i: nat, n: nat)
    requires n > 0
    ensures Uses(Slot(i, n), i, n) == Round(i, n)
  {
    if i >= n {
      UsesBefore(i - n, n);
      UsesPause(i - n, i, n);
    } else {
      NeverUsed(i, i, n);
    }
  }

  lemma {:induction false} NeverUsed(s: nat, k: nat, n: nat)
    requires k <= s < n
    ensures Uses(s, k, n) == 0
  {
    if k > 0 {
      NeverUsed(s, k - 1, n);
    }
  }

  /** The generation of scope `i`'s slot changes again exactly when scope `i + n` begins. */
  lemma {:induction false} SameGeneration(i: nat, k: nat, n: nat)
    requires n > 0 && i < k
    ensures Uses(Slot(i, n), k, n) == Round(i, n) + 1 <==> k <= i + n
  {
    UsesBefore(i, n);
    if k <= i + n {
      UsesPause(i, k, n);
    } else {
      UsesPause(i, i + n, n);
      assert Slot(i + n, n) == Slot(i, n);
      UsesMonotone(Slot(i, n), i + n + 1, k, n);
    }
  }

  // ---------- the ring after k scopes ----------

  /** The fence slot `s` carries after `k` scopes have begun and `ended` of them have ended: scope `j`
      ends with fence `j + 1`. */
  function FenceAfter(s: nat, k: nat, ended: nat, n: nat): nat
    requires n > 0
  {
    var j := LastScope(s, k, n);
    if 0 <= j < ended then j + 1 else 0
  }

  ghost predicate RingAfter(r: Ring, k: nat, ended: nat) {
    && r.Valid()
    && r.current == (if k == 0 then -1 else Slot(k - 1, |r.fences|))
    && (forall s :: 0 <= s < |r.fences| ==> r.fences[s] == FenceAfter(s, k, ended, |r.fences|))
    && (forall s :: 0 <= s < |r.generations| ==> r.generations[s] == 1 + Uses(s, k, |r.fences|))
  }

  lemma {:induction false} StartIsNext(r: Ring, k: nat)
    requires RingAfter(r, k, k)
    ensures Start(r) == Slot(k, |r.fences|)
  {
    if k > 0 {
      SlotAdvances(k - 1, |r.fences|);
    }
  }

  /** The slot next in line is the oldest: every other busy slot carries a later fence. */
  lemma {:induction false} NextIsOldest(r: Ring, k: nat, s: nat)
    requires RingAfter(r, k, k) && s < |r.fences|
    ensures var n := |r.fences|; var mine := r.fences[Slot(k, n)];
            && mine == (if k < n then 0 else k - n + 1)
            && (s != Slot(k, n) && k >= n ==> r.fences[s] > mine)
  {
    var n := |r.fences|;
    PreviousUser(k, n);
    LastScopeRange(s, k, n);
    if s != Slot(k, n) && k >= n {
      assert Slot(k - n, n) == Slot(k, n);
    }
  }

  /** The fence scope `k` has to wait for, 0 when its slot is fresh. */
  function OldFence(k: nat, n: nat): nat { if k < n then 0 else k - n + 1 }

  /** Scope `k` always gets slot `k % n`; the search never passes its first candidate, and when that
      one is in flight the ring waits for exactly its fence. */
  lemma {:induction false} SelectIsNext(r: Ring, b: Backend, k: nat)
    requires RingAfter(r, k, k)
    ensures var (next, after, s) := Select(r, b); var n := |r.fences|; var waited := OldFence(k, n);
            && s == Slot(k, n)
            && RingAfter(next, k + 1, k)
            && after == WaitUntil(b, waited)
            && next.waits == r.waits + (if waited > b.completed then 1 else 0)
  {
    var n := |r.fences|;
    StartIsNext(r, k);
    NextIsOldest(r, k, Slot(k, n));
    assert Wrap(Slot(k, n) + 0, n) == Slot(k, n);
    var found := FirstFree(r.fences, b.completed, Start(r), 0);
    if OldFence(k, n) > b.completed {
      forall s | 0 <= s < n
        ensures r.fences[s] >= OldFence(k, n) > b.completed
        ensures s != Slot(k, n) ==> r.fences[s] > OldFence(k, n)
      {
        NextIsOldest(r, k, s);
      }
      OldestUnique(r.fences, Slot(k, n));
    }
    TakeNext(r, k);
  }

  lemma {:induction false} OldestUnique(fences: seq<nat>, s: nat)
    requires s < |fences| && fences[s] > 0
    requires forall t :: 0 <= t < |fences| && t != s ==> fences[t] > fences[s]
    ensures OldestBusy(fences, |fences|) == s
  {
  }

  lemma {:induction false} TakeNext(r: Ring, k: nat)
    requires RingAfter(r, k, k)
    ensures RingAfter(Take(r, Slot(k, |r.fences|)), k + 1, k)
  {
    var n := |r.fences|;
    var next := Take(r, Slot(k, n));
    forall s | 0 <= s < n
      ensures next.fences[s] == FenceAfter(s, k + 1, k, n) && next.generations[s] == 1 + Uses(s, k + 1, n)
    {
      assert r.fences[s] == FenceAfter(s, k, k, n) && r.generations[s] == 1 + Uses(s, k, n);
      LastScopeRange(s, k, n);
    }
  }

  /** The scope's end puts its fence on its slot. */
  lemma {:induction false} RecordIsNext(r: Ring, k: nat)
    requires k > 0 && RingAfter(r, k, k - 1)
    ensures RingAfter(RecordFence(r, k), k, k)
  {
    var n := |r.fences|;
    forall s | 0 <= s < n
      ensures RecordFence(r, k).fences[s] == FenceAfter(s, k, k, n)
    {
      LastScopeRange(s, k, n);
    }
  }
}
