/** Predicting the shards of equal-sized records (`max_fixed_records_per_shard`,
    `expected_shard_samples`) and why the prediction is exact. */
module GddsPredict {
  import opened Arith
  import opened Seqs
  import opened Bytes
  import opened GddsRecord
  import opened GddsShard
  import opened GddsSplit

  /** `n` records of `size` bytes fit in one shard. */
  predicate FixedFits(dataOffset: nat, size: nat, limit: nat, n: nat) {
    Projected(dataOffset, n * size, n) <= limit
  }

  lemma {:induction false} FixedMonotone(dataOffset: nat, size: nat, limit: nat, m: nat, n: nat)
    requires m <= n && FixedFits(dataOffset, size, limit, n)
    ensures FixedFits(dataOffset, size, limit, m)
  {
    MulLe(m, n, size);
    AlignUpMonotone(dataOffset + m * size, dataOffset + n * size, 64);
  }

  lemma {:induction false} FixedAtLeast(dataOffset: nat, size: nat, n: nat)
    ensures Projected(dataOffset, n * size, n) >= dataOffset + n * (size + INDEX_ENTRY_SIZE)
  {
    AlignUpIsLeast(dataOffset + n * size, 64);
    assert n * (size + INDEX_ENTRY_SIZE) == n * size + n * INDEX_ENTRY_SIZE;
  }

  /** The first guess for the upper bound. */
  function FirstBound(dataOffset: nat, size: nat, limit: nat): int {
    Max(1, (limit - dataOffset) / (size + INDEX_ENTRY_SIZE) + 2)
  }

  /** The first guess is already too large, so the doubling loop never runs. */
  lemma {:induction false} DoublingNeverRuns(dataOffset: nat, size: nat, limit: nat)
    requires FixedFits(dataOffset, size, limit, 1)
    ensures FirstBound(dataOffset, size, limit) >= 1
    ensures !FixedFits(dataOffset, size, limit, FirstBound(dataOffset, size, limit))
  {
    FixedAtLeast(dataOffset, size, 1);
    QuotientBound(limit - dataOffset, size + INDEX_ENTRY_SIZE);
    FixedAtLeast(dataOffset, size, FirstBound(dataOffset, size, limit));
  }

  lemma {:induction false} QuotientBound(x: nat, per: nat)
    requires per > 0
    ensures (x / per + 2) * per > x
  {
    DivMod(x, per);
    assert (x / per + 2) * per == x / per * per + per + per;
  }

  /** `max_fixed_records_per_shard`: `None` stands for the `ValueError`s; otherwise the result is the
      largest count that fits. */
  method MaxFixedRecords(dataOffset: nat, recordNbytes: int, maxShardBytes: int) returns (r: Option<nat>)
    ensures r.None? <==> recordNbytes <= 0 || maxShardBytes <= 0
    ensures r.Some? ==> forall n: nat ::
        n > 0
        ==> (n <= r.value <==> FixedFits(dataOffset, recordNbytes, maxShardBytes, n))
  {
    if recordNbytes <= 0 || maxShardBytes <= 0 {
      return None;
    }
    if Projected(dataOffset, recordNbytes, 1) > maxShardBytes {
      NothingFits(dataOffset, recordNbytes, maxShardBytes);
      return Some(0);
    }
    var hi := FirstBound(dataOffset, recordNbytes, maxShardBytes);
    while FixedFits(dataOffset, recordNbytes, maxShardBytes, hi)
      invariant hi >= 1
      decreases maxShardBytes - hi
    {
      FitsBounds(dataOffset, recordNbytes, maxShardBytes, hi);
      hi := hi * 2;
    }
    var lo := Search(dataOffset, recordNbytes, maxShardBytes, hi);
    r := Some(lo);
  }

  /** The binary search below a count that does not fit. */
  method Search(dataOffset: nat, size: nat, limit: nat, top: nat) returns (lo: nat)
    requires !FixedFits(dataOffset, size, limit, top)
    ensures forall n: nat :: n > 0 ==> (n <= lo <==> FixedFits(dataOffset, size, limit, n))
  {
    var hi := top;
    lo := 0;
    while lo < hi
      invariant lo <= hi <= top
      invariant lo > 0 ==> FixedFits(dataOffset, size, limit, lo)
      invariant hi < top ==> !FixedFits(dataOffset, size, limit, hi + 1)
    {
      var mid := (lo + hi + 1) / 2;
      if FixedFits(dataOffset, size, limit, mid) {
        lo := mid;
      } else {
        hi := mid - 1;
      }
    }
    FitsExactly(dataOffset, size, limit, lo, top);
  }

  lemma {:induction false} NothingFits(dataOffset: nat, size: nat, limit: nat)
    requires !FixedFits(dataOffset, size, limit, 1)
    ensures forall n: nat :: n > 0 ==> !FixedFits(dataOffset, size, limit, n)
  {
    forall n: nat | n > 0
      ensures !FixedFits(dataOffset, size, limit, n)
    {
      if FixedFits(dataOffset, size, limit, n) {
        FixedMonotone(dataOffset, size, limit, 1, n);
      }
    }
  }

  lemma {:induction false} FitsBounds(dataOffset: nat, size: nat, limit: nat, n: nat)
    requires FixedFits(dataOffset, size, limit, n)
    ensures n <= limit
  {
  }

  /** Where the search ends: `lo` fits and the next count does not. */
  lemma {:induction false} FitsExactly(dataOffset: nat, size: nat, limit: nat, lo: nat, top: nat)
    requires lo > 0 ==> FixedFits(dataOffset, size, limit, lo)
    requires lo <= top && !FixedFits(dataOffset, size, limit, if lo == top then top else lo + 1)
    ensures forall n: nat :: n > 0 ==> (n <= lo <==> FixedFits(dataOffset, size, limit, n))
  {
    forall n: nat | n > 0
      ensures n <= lo <==> FixedFits(dataOffset, size, limit, n)
    {
      if n <= lo {
        FixedMonotone(dataOffset, size, limit, n, lo);
      } else if FixedFits(dataOffset, size, limit, n) {
        FixedMonotone(dataOffset, size, limit, lo + 1, n);
        FixedMonotone(dataOffset, size, limit, lo, n);
      }
    }
  }

  // ---------- the predicted counts ----------

  /** Full shards, then the remainder. */
  function Counts(perShard: nat, n: nat): (r: seq<nat>)
    requires perShard > 0
    ensures n > 0 ==> r != []
  {
    if n == 0 then [] else [Min(perShard, n)] + Counts(perShard, n - Min(perShard, n))
  }

  /** `expected_shard_samples`; `None` stands for its `ValueError`. */
  method ExpectedShardSamples(dataOffset: nat, recordNbytes: int, maxShardBytes: int, nSamples: nat)
    returns (r: Option<seq<nat>>, ghost perShard: nat)
    ensures r.Some? <==> recordNbytes > 0 && maxShardBytes > 0 && FixedFits(dataOffset, recordNbytes, maxShardBytes, 1)
    ensures r.Some? ==>
        IsLargest(dataOffset, recordNbytes, maxShardBytes, perShard)
        && r.value == Counts(perShard, nSamples)
  {
    perShard := 0;
    var m := MaxFixedRecords(dataOffset, recordNbytes, maxShardBytes);
    if m.None? || m.value == 0 {
      return None, perShard;
    }
    perShard := m.value;
    var counts: seq<nat>, remaining := [], nSamples;
    while remaining > 0
      invariant remaining >= 0
      invariant counts + Counts(perShard, remaining) == Counts(perShard, nSamples)
    {
      var count := Min(m.value, remaining);
      assert Counts(perShard, remaining) == [count] + Counts(perShard, remaining - count);
      assert counts + ([count] + Counts(perShard, remaining - count))
          == counts + [count] + Counts(perShard, remaining - count);
      counts := counts + [count];
      remaining := remaining - count;
    }
    r := Some(counts);
  }

  /** `m` is the largest number of records that fits one shard, and it is positive. */
  ghost predicate IsLargest(dataOffset: nat, size: nat, limit: nat, m: nat) {
    m > 0 && forall n: nat :: n > 0 ==> (n <= m <==> FixedFits(dataOffset, size, limit, n))
  }

  /** One record more goes to the last shard while it has room, else it opens a new one. */
  lemma {:induction false} CountsSnoc(perShard: nat, n: nat)
    requires perShard > 0 && n > 0
    ensures var c := Counts(perShard, n); var last := c[|c| - 1];
            && 1 <= last <= perShard
            && Counts(perShard, n + 1) == if last < perShard then c[..|c| - 1] + [last + 1] else c + [1]
  {
    var rest := n - Min(perShard, n);
    if n < perShard {
      assert Counts(perShard, n) == [n] + Counts(perShard, 0);
      assert Counts(perShard, n + 1) == [n + 1] + Counts(perShard, 0);
    } else {
      assert Counts(perShard, n + 1) == [perShard] + Counts(perShard, rest + 1);
      if rest == 0 {
        assert Counts(perShard, n) == [perShard] + Counts(perShard, 0);
        assert Counts(perShard, 1) == [1] + Counts(perShard, 0);
      } else {
        CountsSnoc(perShard, rest);
      }
    }
  }

  // ---------- what the writer really does ----------

  ghost predicate AllOfSize(rs: seq<Data>, size: nat) {
    forall i :: 0 <= i < |rs| ==> |rs[i]| == size
  }

  lemma {:induction false} TotalOfSize(rs: seq<Data>, size: nat)
    requires AllOfSize(rs, size)
    ensures TotalBytes(rs) == |rs| * size
  {
    if rs != [] {
      TotalOfSize(rs[..|rs| - 1], size);
      assert |rs| * size == (|rs| - 1) * size + size;
    }
  }

  lemma {:induction false} FitsFixed(dataOffset: nat, size: nat, limit: nat, rs: seq<Data>)
    requires AllOfSize(rs, size)
    ensures Fits(dataOffset, Some(limit), rs) <==> FixedFits(dataOffset, size, limit, |rs|)
  {
    TotalOfSize(rs, size);
  }

  function Lengths(shards: seq<seq<Data>>): (r: seq<nat>)
    ensures |r| == |shards| && forall i :: 0 <= i < |r| ==> r[i] == |shards[i]|
  {
    seq(|shards|, i requires 0 <= i < |shards| => |shards[i]|)
  }

  /** The writer after `n` equal records. */
  ghost predicate Follows(st: State, size: nat, perShard: nat, n: nat)
    requires perShard > 0
  {
    && Lengths(st.Shards()) == Counts(perShard, n)
    && AllOfSize(st.current, size)
    && (n > 0 ==> st.current != [])
  }

  lemma {:induction false} FollowsStep(dataOffset: nat, size: nat, limit: nat, perShard: nat, st: State, n: nat,
        r: Data)
    requires IsLargest(dataOffset, size, limit, perShard) && |r| == size >= RECORD_HEADER_SIZE
    requires Follows(st, size, perShard, n)
    ensures Follows(Step(dataOffset, Some(limit), st, r).0, size, perShard, n + 1)
  {
    FitsFixed(dataOffset, size, limit, [r]);
    FitsFixed(dataOffset, size, limit, st.current + [r]);
    if n == 0 {
      assert st.done == [] by { assert |Lengths(st.Shards())| == 0; }
      LengthsSnoc([], [r]);
      assert Counts(perShard, 1) == [1] + Counts(perShard, 0);
    } else {
      CountsSnoc(perShard, n);
      LengthsSnoc(st.done, st.current);
      assert |st.current| < perShard <==> FixedFits(dataOffset, size, limit, |st.current| + 1);
      LengthsSnoc(st.done, st.current + [r]);
      LengthsSnoc(st.Shards(), [r]);
    }
  }

  lemma {:induction false} LengthsSnoc(shards: seq<seq<Data>>, last: seq<Data>)
    ensures Lengths(shards + [last]) == Lengths(shards) + [|last|]
  {
  }

  /** The predicted counts are exactly the sizes of the shards the split writer produces. */
  lemma {:induction false} PredictionExact(dataOffset: nat, size: nat, limit: nat, perShard: nat, rs: seq<Data>)
    requires IsLargest(dataOffset, size, limit, perShard) && size >= RECORD_HEADER_SIZE && AllOfSize(rs, size)
    ensures Follows(Run(dataOffset, Some(limit), EMPTY, rs), size, perShard, |rs|)
  {
    if rs != [] {
      var n := |rs| - 1;
      PredictionExact(dataOffset, size, limit, perShard, rs[..n]);
      FollowsStep(dataOffset, size, limit, perShard, Run(dataOffset, Some(limit), EMPTY, rs[..n]), n, rs[n]);
    }
  }
}
