/** Greedy sharding: what `GddsSplitWriter.write_record` does to the list of shards. */
module GddsSplit {
  import opened Arith
  import opened Seqs
  import opened Bytes
  import opened GddsRecord
  import opened GddsShard

  /** Would a shard with these records stay within the limit? */
  predicate Fits(dataOffset: nat, limit: Option<nat>, records: seq<Data>) {
    limit.None? || Projected(dataOffset, TotalBytes(records), |records|) <= limit.value
  }

  /** Finished shards and the records of the shard being written. */
  datatype State = State(done: seq<seq<Data>>, current: seq<Data>) {
    function Shards(): seq<seq<Data>> {
      if current == [] then done else done + [current]
    }
  }

  datatype Status = Written | AlreadyFinished | TooSmall | TooLarge

  /** One `write_record` on an unfinished split. */
  function Step(dataOffset: nat, limit: Option<nat>, st: State, r: Data): (State, Status) {
    if |r| < RECORD_HEADER_SIZE then (st, TooSmall)
    else if st.current != [] && Fits(dataOffset, limit, st.current + [r]) then
      (State(st.done, st.current + [r]), Written)
    else
      var closed := State(st.Shards(), []);
      if Fits(dataOffset, limit, [r]) then (State(closed.done, [r]), Written) else (closed, TooLarge)
  }

  /** The split after a run of `write_record` calls. */
  function Run(dataOffset: nat, limit: Option<nat>, st: State, rs: seq<Data>): State {
    if rs == [] then st
    else Step(dataOffset, limit, Run(dataOffset, limit, st, rs[..|rs| - 1]), rs[|rs| - 1]).0
  }

  const EMPTY: State := State([], [])

  /** The records the writer accepts: long enough and within the limit on their own. */
  predicate Acceptable(dataOffset: nat, limit: Option<nat>, r: Data) {
    |r| >= RECORD_HEADER_SIZE && Fits(dataOffset, limit, [r])
  }

  function Accepted(dataOffset: nat, limit: Option<nat>, rs: seq<Data>): seq<Data> {
    if rs == [] then []
    else
      var rest, r := Accepted(dataOffset, limit, rs[..|rs| - 1]), rs[|rs| - 1];
      if Acceptable(dataOffset, limit, r) then rest + [r] else rest
  }

  ghost predicate AllAcceptable(dataOffset: nat, limit: Option<nat>, rs: seq<Data>) {
    forall i :: 0 <= i < |rs| ==> Acceptable(dataOffset, limit, rs[i])
  }

  lemma {:induction false} AllAccepted(dataOffset: nat, limit: Option<nat>, rs: seq<Data>)
    requires AllAcceptable(dataOffset, limit, rs)
    ensures Accepted(dataOffset, limit, rs) == rs
  {
    if rs != [] {
      AllAccepted(dataOffset, limit, rs[..|rs| - 1]);
    }
  }

  // ---------- a part of a shard fits when the shard fits ----------

  lemma {:induction false} FitsMonotone(dataOffset: nat, limit: Option<nat>, a: seq<Data>, b: seq<Data>)
    requires TotalBytes(a) <= TotalBytes(b) && |a| <= |b| && Fits(dataOffset, limit, b)
    ensures Fits(dataOffset, limit, a)
  {
    AlignUpMonotone(dataOffset + TotalBytes(a), dataOffset + TotalBytes(b), 64);
  }

  lemma {:induction false} PartFits(dataOffset: nat, limit: Option<nat>, records: seq<Data>, i: nat, j: nat)
    requires i <= j <= |records| && Fits(dataOffset, limit, records)
    ensures Fits(dataOffset, limit, records[i..j])
  {
    TotalAppend(records[..i], records[i..j]);
    TotalAppend(records[..j], records[j..]);
    assert records == records[..j] + records[j..] && records[..j] == records[..i] + records[i..j];
    FitsMonotone(dataOffset, limit, records[i..j], records);
  }

  // ---------- lossless, non-empty, within the limit ----------

  /** Every shard is non-empty and within the limit. */
  ghost predicate GoodShards(dataOffset: nat, limit: Option<nat>, shards: seq<seq<Data>>) {
    forall k :: 0 <= k < |shards| ==> shards[k] != [] && Fits(dataOffset, limit, shards[k])
  }

  lemma {:induction false} StepKeeps(dataOffset: nat, limit: Option<nat>, st: State, r: Data)
    requires GoodShards(dataOffset, limit, st.Shards())
    ensures var (next, status) := Step(dataOffset, limit, st, r);
            && GoodShards(dataOffset, limit, next.Shards())
            && (status == Written <==> Acceptable(dataOffset, limit, r))
            && Flatten(next.Shards()) == Flatten(st.Shards()) + (if status == Written then [r] else [])
  {
    if st.current != [] {
      JoinLast(st.done, st.current, r);
      if Fits(dataOffset, limit, st.current + [r]) {
        LastFits(dataOffset, limit, st.current, r);
      }
    }
    FlattenSnoc(st.Shards(), [r]);
  }

  lemma {:induction false} JoinLast(done: seq<seq<Data>>, current: seq<Data>, r: Data)
    ensures Flatten(done + [current + [r]]) == Flatten(done + [current]) + [r]
  {
    FlattenSnoc(done, current);
    FlattenSnoc(done, current + [r]);
    assert Flatten(done) + (current + [r]) == Flatten(done) + current + [r];
  }

  lemma {:induction false} LastFits(dataOffset: nat, limit: Option<nat>, current: seq<Data>, r: Data)
    requires Fits(dataOffset, limit, current + [r])
    ensures Fits(dataOffset, limit, [r])
  {
    var n := |current|;
    assert (current + [r])[n..n + 1] == [r];
    PartFits(dataOffset, limit, current + [r], n, n + 1);
  }

  /** Whatever is written, the shards are non-empty and within the limit, and joined they are exactly
      the accepted records in order. */
  lemma {:induction false} SplitIsLossless(dataOffset: nat, limit: Option<nat>, rs: seq<Data>)
    ensures var shards := Run(dataOffset, limit, EMPTY, rs).Shards();
            GoodShards(dataOffset, limit, shards) && Flatten(shards) == Accepted(dataOffset, limit, rs)
  {
    if rs != [] {
      SplitIsLossless(dataOffset, limit, rs[..|rs| - 1]);
      StepKeeps(dataOffset, limit, Run(dataOffset, limit, EMPTY, rs[..|rs| - 1]), rs[|rs| - 1]);
    }
  }

  // ---------- optimality ----------

  lemma {:induction false} RunAppend(dataOffset: nat, limit: Option<nat>, st: State, a: seq<Data>, b: seq<Data>)
    ensures Run(dataOffset, limit, st, a + b) == Run(dataOffset, limit, Run(dataOffset, limit, st, a), b)
  {
    if b == [] {
      assert a + b == a;
    } else {
      var n := |b| - 1;
      assert (a + b)[..|a + b| - 1] == a + b[..n];
      RunAppend(dataOffset, limit, st, a, b[..n]);
    }
  }

  /** How far the writer is behind `st` after some records of a block: no new shard yet, or one new
      shard that holds records of the block only. */
  ghost predicate AtMostOneMore(st: State, now: State, block: seq<Data>, j: nat)
    requires j <= |block|
  {
    || |now.Shards()| <= |st.Shards()|
    || (|now.Shards()| == |st.Shards()| + 1 && exists i :: 0 <= i < j && now.current == block[i..j])
  }

  /** An acceptable record joins the current shard or opens one more. */
  lemma {:induction false} StepCount(dataOffset: nat, limit: Option<nat>, st: State, r: Data)
    requires Acceptable(dataOffset, limit, r)
    ensures var next := Step(dataOffset, limit, st, r).0;
            if st.current != [] && Fits(dataOffset, limit, st.current + [r])
            then |next.Shards()| == |st.Shards()| && next.current == st.current + [r]
            else |next.Shards()| == |st.Shards()| + 1 && next.current == [r]
  {
  }

  lemma {:induction false} BlockStep(dataOffset: nat, limit: Option<nat>, st: State, block: seq<Data>, j: nat,
        now: State)
    requires j < |block| && Fits(dataOffset, limit, block) && Acceptable(dataOffset, limit, block[j])
    requires AtMostOneMore(st, now, block, j)
    ensures AtMostOneMore(st, Step(dataOffset, limit, now, block[j]).0, block, j + 1)
  {
    StepCount(dataOffset, limit, now, block[j]);
    if |now.Shards()| <= |st.Shards()| {
      assert [block[j]] == block[j..j + 1];
    } else {
      var i :| 0 <= i < j && now.current == block[i..j];
      BlockPart(dataOffset, limit, block, i, j);
    }
  }

  lemma {:induction false} BlockPart(dataOffset: nat, limit: Option<nat>, block: seq<Data>, i: nat, j: nat)
    requires i <= j < |block| && Fits(dataOffset, limit, block)
    ensures block[i..j] + [block[j]] == block[i..j + 1]
    ensures Fits(dataOffset, limit, block[i..j + 1])
  {
    PartFits(dataOffset, limit, block, i, j + 1);
  }

  /** Records that fit together add at most one shard. */
  lemma {:induction false} BlockAddsOne(dataOffset: nat, limit: Option<nat>, st: State, block: seq<Data>, j: nat)
    requires j <= |block| && Fits(dataOffset, limit, block) && AllAcceptable(dataOffset, limit, block)
    ensures AtMostOneMore(st, Run(dataOffset, limit, st, block[..j]), block, j)
  {
    if j > 0 {
      BlockAddsOne(dataOffset, limit, st, block, j - 1);
      assert block[..j][..j - 1] == block[..j - 1];
      BlockStep(dataOffset, limit, st, block, j - 1, Run(dataOffset, limit, st, block[..j - 1]));
    }
  }

  /** No order-preserving split within the limit uses fewer shards. */
  lemma {:induction false} SplitIsOptimal(dataOffset: nat, limit: Option<nat>, rs: seq<Data>, other: seq<seq<Data>>)
    requires AllAcceptable(dataOffset, limit, rs) && Flatten(other) == rs
    requires forall k :: 0 <= k < |other| ==> Fits(dataOffset, limit, other[k])
    ensures |Run(dataOffset, limit, EMPTY, rs).Shards()| <= |other|
    decreases |other|
  {
    if other != [] {
      var n := |other| - 1;
      var front, block := Flatten(other[..n]), other[n];
      assert front == rs[..|front|] && block == rs[|front|..];
      assert AllAcceptable(dataOffset, limit, block) by {
        forall i | 0 <= i < |block|
          ensures Acceptable(dataOffset, limit, block[i])
        {
          assert block[i] == rs[|front| + i];
        }
      }
      SplitIsOptimal(dataOffset, limit, front, other[..n]);
      var st := Run(dataOffset, limit, EMPTY, front);
      RunAppend(dataOffset, limit, EMPTY, front, block);
      BlockAddsOne(dataOffset, limit, st, block, |block|);
      assert block[..|block|] == block;
    }
  }
}
