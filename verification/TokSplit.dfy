/** How the writer splits sequences into shards: every shard is filled, and no split uses fewer. */
module TokSplit {
  import opened Seqs
  import opened TokCorpus
  import opened TokWriter

  /** The writer after these sequences. */
  function Run(variable: bool, limit: nat, st: State, rs: seq<seq<int>>): State {
    if rs == [] then st
    else Step(variable, limit, Run(variable, limit, st, rs[..|rs| - 1]), rs[|rs| - 1]).0
  }

  lemma {:induction false} RunSnoc(variable: bool, limit: nat, st: State, rs: seq<seq<int>>, s: seq<int>)
    ensures Run(variable, limit, st, rs + [s]) == Step(variable, limit, Run(variable, limit, st, rs), s).0
  {
    assert (rs + [s])[..|rs|] == rs;
  }

  ghost predicate AllAcceptable(variable: bool, limit: nat, rs: seq<seq<int>>) {
    forall i :: 0 <= i < |rs| ==> Acceptable(variable, limit, rs[i])
  }

  const EMPTY: State := State([], [])

  // ---------- every shard is filled ----------

  /** The first sequence of a shard did not fit the one before it. */
  ghost predicate Filled(variable: bool, limit: nat, shards: seq<seq<seq<int>>>) {
    forall k :: 0 <= k < |shards| - 1 ==> NoRoom(variable, limit, shards[k], shards[k + 1])
  }

  ghost predicate NoRoom(variable: bool, limit: nat, shard: seq<seq<int>>, next: seq<seq<int>>) {
    next != [] && ShardBytes(variable, shard + [next[0]]) > limit
  }

  /** What an accepted sequence does: it joins the open shard or opens one more. */
  lemma {:induction false} StepCases(variable: bool, limit: nat, st: State, s: seq<int>)
    requires Acceptable(variable, limit, s)
    ensures var next := Step(variable, limit, st, s).0;
            if st.current == [] then next == State(st.done, [s])
            else if ShardBytes(variable, st.current + [s]) > limit then next == State(st.done + [st.current], [s])
            else next == State(st.done, st.current + [s])
  {
    if st.current == [] {
      assert st.current + [s] == [s];
    }
  }

  lemma {:induction false} StepFills(variable: bool, limit: nat, st: State, s: seq<int>)
    requires Filled(variable, limit, st.Shards()) && (st.current == [] ==> st.done == [])
    requires Acceptable(variable, limit, s)
    ensures var next := Step(variable, limit, st, s).0;
            Filled(variable, limit, next.Shards()) && next.current != []
  {
    var before, after := st.Shards(), Step(variable, limit, st, s).0.Shards();
    StepCases(variable, limit, st, s);
    forall k | 0 <= k < |after| - 1
      ensures NoRoom(variable, limit, after[k], after[k + 1])
    {
      if k + 1 < |before| {
        assert NoRoom(variable, limit, before[k], before[k + 1]);
        assert after[k] == before[k] && after[k + 1][0] == before[k + 1][0];
      }
    }
  }

  // ---------- optimality ----------

  lemma {:induction false} RunAppend(variable: bool, limit: nat, st: State, a: seq<seq<int>>, b: seq<seq<int>>)
    ensures Run(variable, limit, st, a + b) == Run(variable, limit, Run(variable, limit, st, a), b)
    decreases |b|
  {
    if b == [] {
      assert a + b == a;
    } else {
      var n := |b| - 1;
      assert (a + b)[..|a + b| - 1] == a + b[..n];
      RunAppend(variable, limit, st, a, b[..n]);
    }
  }

  /** Part of a shard is no larger. */
  lemma {:induction false} PartFits(variable: bool, limit: nat, ss: seq<seq<int>>, i: nat, j: nat)
    requires i <= j <= |ss| && ShardBytes(variable, ss) <= limit
    ensures ShardBytes(variable, ss[i..j]) <= limit
  {
    FlattenAppend(ss[..i], ss[i..j]);
    FlattenAppend(ss[..j], ss[j..]);
    assert ss == ss[..j] + ss[j..] && ss[..j] == ss[..i] + ss[i..j];
  }

  /** How far the writer is behind `st` after some sequences of a block: no new shard yet, or one new shard
      that holds sequences of the block only. */
  ghost predicate AtMostOneMore(st: State, now: State, block: seq<seq<int>>, j: nat)
    requires j <= |block|
  {
    || |now.Shards()| <= |st.Shards()|
    || (|now.Shards()| == |st.Shards()| + 1 && exists i :: 0 <= i < j && now.current == block[i..j])
  }

  lemma {:induction false} StepCount(variable: bool, limit: nat, st: State, s: seq<int>)
    requires Acceptable(variable, limit, s)
    ensures var next := Step(variable, limit, st, s).0;
            if st.current != [] && ShardBytes(variable, st.current + [s]) <= limit
            then |next.Shards()| == |st.Shards()| && next.current == st.current + [s]
            else |next.Shards()| == |st.Shards()| + 1 && next.current == [s]
  {
    StepCases(variable, limit, st, s);
  }

  lemma {:induction false} BlockPart(variable: bool, limit: nat, block: seq<seq<int>>, i: nat, j: nat)
    requires i <= j < |block| && ShardBytes(variable, block) <= limit
    ensures block[i..j] + [block[j]] == block[i..j + 1]
    ensures ShardBytes(variable, block[i..j + 1]) <= limit
  {
    PartFits(variable, limit, block, i, j + 1);
  }

  lemma {:induction false} BlockStep(variable: bool, limit: nat, st: State, block: seq<seq<int>>, j: nat, now: State)
    requires j < |block| && ShardBytes(variable, block) <= limit && Acceptable(variable, limit, block[j])
    requires AtMostOneMore(st, now, block, j)
    ensures AtMostOneMore(st, Step(variable, limit, now, block[j]).0, block, j + 1)
  {
    StepCount(variable, limit, now, block[j]);
    if |now.Shards()| <= |st.Shards()| {
      assert [block[j]] == block[j..j + 1];
    } else {
      var i :| 0 <= i < j && now.current == block[i..j];
      BlockPart(variable, limit, block, i, j);
    }
  }

  /** Sequences that fit together add at most one shard. */
  lemma {:induction false} BlockAddsOne(variable: bool, limit: nat, st: State, block: seq<seq<int>>, j: nat)
    requires j <= |block| && ShardBytes(variable, block) <= limit && AllAcceptable(variable, limit, block)
    ensures AtMostOneMore(st, Run(variable, limit, st, block[..j]), block, j)
  {
    if j > 0 {
      BlockAddsOne(variable, limit, st, block, j - 1);
      assert block[..j][..j - 1] == block[..j - 1];
      BlockStep(variable, limit, st, block, j - 1, Run(variable, limit, st, block[..j - 1]));
    }
  }

  lemma {:induction false} PartsAcceptable(variable: bool, limit: nat, a: seq<seq<int>>, b: seq<seq<int>>)
    requires AllAcceptable(variable, limit, a + b)
    ensures AllAcceptable(variable, limit, a) && AllAcceptable(variable, limit, b)
  {
    assert forall i :: 0 <= i < |a| ==> (a + b)[i] == a[i];
    assert forall i :: 0 <= i < |b| ==> (a + b)[|a| + i] == b[i];
  }

  /** No split of the sequences, in their order and within the limit, uses fewer shards. */
  lemma {:induction false} ShardsOptimal(variable: bool, limit: nat, rs: seq<seq<int>>, other: seq<seq<seq<int>>>)
    requires AllAcceptable(variable, limit, rs) && Flatten(other) == rs
    requires forall k :: 0 <= k < |other| ==> ShardBytes(variable, other[k]) <= limit
    ensures |Run(variable, limit, EMPTY, rs).Shards()| <= |other|
    decreases |other|
  {
    if other != [] {
      var n := |other| - 1;
      var front, block := Flatten(other[..n]), other[n];
      PartsAcceptable(variable, limit, front, block);
      ShardsOptimal(variable, limit, front, other[..n]);
      RunAppend(variable, limit, EMPTY, front, block);
      BlockAddsOne(variable, limit, Run(variable, limit, EMPTY, front), block, |block|);
      assert block[..|block|] == block;
    }
  }

  /** What holds after any accepted sequences. */
  ghost predicate Written(variable: bool, limit: nat, st: State, rs: seq<seq<int>>) {
    && Sound(variable, limit, st) && st.All() == rs
    && Filled(variable, limit, st.Shards()) && (st.current == [] ==> st.done == [])
  }

  lemma {:induction false} OneMoreWritten(variable: bool, limit: nat, st: State, rs: seq<seq<int>>, s: seq<int>)
    requires Written(variable, limit, st, rs) && Acceptable(variable, limit, s)
    ensures Written(variable, limit, Step(variable, limit, st, s).0, rs + [s])
  {
    StepKeeps(variable, limit, st, s);
    StepFills(variable, limit, st, s);
  }

  /** After any accepted sequences the shards are sound, filled, and joined they are the sequences. */
  lemma {:induction false} RunFills(variable: bool, limit: nat, rs: seq<seq<int>>)
    requires AllAcceptable(variable, limit, rs)
    ensures Written(variable, limit, Run(variable, limit, EMPTY, rs), rs)
  {
    if rs != [] {
      var n := |rs| - 1;
      RunFills(variable, limit, rs[..n]);
      OneMoreWritten(variable, limit, Run(variable, limit, EMPTY, rs[..n]), rs[..n], rs[n]);
      LastSplit(rs);
    }
  }
}
