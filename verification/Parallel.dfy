/** Splitting a packing job into ranges, running the ranges in any completion order and putting
    the shards back in order by file name (`plan_pack_ranges`, `write_gdds_split_parallel`). */
module Parallel {
  import opened Arith
  import opened Seqs
  import opened Decimal
  import opened Packing

  /** One planned shard: its number and its sample range. */
  datatype PlanRange = PlanRange(shardIndex: nat, start: nat, count: nat)

  /** `estimate_packed_record_nbytes`. */
  function RecordEstimate(c: nat): (r: nat) {
    Max(16 * 1024, (c + 1) * 2 + c * 2 + 512)
  }

  /** Planned shards hold at most this many samples. */
  function MaxSamplesPerShard(c: nat, maxShardBytes: int): (r: nat)
    ensures r >= 1
  {
    Max(1, maxShardBytes / RecordEstimate(c))
  }

  /** The ranges cover samples 0, ..., `total - 1` in order, without gap or overlap, none empty,
      and the shard numbers count up. */
  ghost predicate Tiles(ranges: seq<PlanRange>, total: nat)
    decreases |ranges|
  {
    if ranges == [] then total == 0
    else
      var n := |ranges| - 1;
      && ranges[n].shardIndex == n
      && ranges[n].count > 0
      && ranges[n].start + ranges[n].count == total
      && Tiles(ranges[..n], ranges[n].start)
  }

  function CeilDiv(a: nat, b: nat): nat
    requires b > 0
  {
    (a + b - 1) / b
  }

  lemma {:induction false} CeilDivIsLeast(a: nat, b: nat, m: nat)
    requires b > 0
    ensures CeilDiv(a, b) * b >= a
    ensures m * b >= a ==> CeilDiv(a, b) <= m
  {
    var q := CeilDiv(a, b);
    DivMod(a + b - 1, b);
    if m < q {
      MulLe(m + 1, q, b);
      assert (m + 1) * b == m * b + b;
    }
  }

  /** Number of shards asked for: enough for the workers, and enough for the size limit. */
  function ShardCount(total: nat, c: nat, maxShardBytes: int, workers: int): (r: nat)
    requires total > 0
    ensures r > 0
  {
    Max(Min(Min(Max(1, workers), 4), total), CeilDiv(total, MaxSamplesPerShard(c, maxShardBytes)))
  }

  function PerShard(total: nat, c: nat, maxShardBytes: int, workers: int): nat
    requires total > 0
  {
    CeilDiv(total, ShardCount(total, c, maxShardBytes, workers))
  }

  /** That many shards of that size hold everything, no smaller size would, and it respects the limit. */
  lemma {:induction false} PerShardFits(total: nat, c: nat, maxShardBytes: int, workers: int)
    requires total > 0
    ensures var perShard := PerShard(total, c, maxShardBytes, workers);
            && 0 < perShard <= MaxSamplesPerShard(c, maxShardBytes)
            && ShardCount(total, c, maxShardBytes, workers) * perShard >= total
            && forall size: nat :: ShardCount(total, c, maxShardBytes, workers) * size >= total ==> perShard <= size
  {
    forall size: nat | ShardCount(total, c, maxShardBytes, workers) * size >= total
      ensures PerShard(total, c, maxShardBytes, workers) <= size
    {
      CeilDivIsLeast(total, ShardCount(total, c, maxShardBytes, workers), size);
    }
    var m, n := MaxSamplesPerShard(c, maxShardBytes), ShardCount(total, c, maxShardBytes, workers);
    CeilDivIsLeast(total, m, 0);
    MulLe(CeilDiv(total, m), n, m);
    CeilDivIsLeast(total, n, m);
    assert m * n == n * m;
  }

  /** A record counts for four bytes per token and 514 more, but at least 16 KiB; a shard gets the most
      samples whose estimates fit it, but at least one. */
  lemma {:induction false} MaxSamplesExact(c: nat, maxShardBytes: int)
    ensures RecordEstimate(c) == if c <= 3967 then 16384 else 4 * c + 514
    ensures var m := MaxSamplesPerShard(c, maxShardBytes);
            (m == 1 || m * RecordEstimate(c) <= maxShardBytes) && maxShardBytes < (m + 1) * RecordEstimate(c)
  {
    var e, m := RecordEstimate(c), MaxSamplesPerShard(c, maxShardBytes);
    assert (m + 1) * e == m * e + e;
    if maxShardBytes >= e {
      DivMod(maxShardBytes, e);
      MulLe(1, maxShardBytes / e, e);
    } else {
      MulLe(1, m, e);
    }
  }

  /** There are as few shards as hold all samples and keep one to four workers busy. */
  lemma {:induction false} ShardCountExact(total: nat, c: nat, maxShardBytes: int, workers: int)
    requires total > 0
    ensures var m, n := MaxSamplesPerShard(c, maxShardBytes), ShardCount(total, c, maxShardBytes, workers);
            && KeepsBusy(n, total, workers) && n * m >= total
            && forall k: nat :: KeepsBusy(k, total, workers) && k * m >= total ==> n <= k
  {
    var m, n := MaxSamplesPerShard(c, maxShardBytes), ShardCount(total, c, maxShardBytes, workers);
    CeilDivIsLeast(total, m, 0);
    MulLe(CeilDiv(total, m), n, m);
    forall k: nat | KeepsBusy(k, total, workers) && k * m >= total
      ensures n <= k
    {
      CeilDivIsLeast(total, m, k);
    }
  }

  /** A shard for every worker, up to four, or for every sample. */
  predicate KeepsBusy(n: nat, total: nat, workers: int) {
    n >= total || (n >= 4 && workers >= 4) || (n >= workers && n >= 1 && workers < 4)
  }

  /** `plan_pack_ranges`: the ranges tile the job, every range respects the per-shard limit, and every
      range but the last has exactly the size that spreads the samples over the workers. */
  method PlanRanges(total: int, c: nat, maxShardBytes: int, workers: int) returns (ranges: seq<PlanRange>)
    ensures Tiles(ranges, Max(0, total))
    ensures forall i :: 0 <= i < |ranges| ==> ranges[i].count <= MaxSamplesPerShard(c, maxShardBytes)
    ensures total > 0 ==> 0 < |ranges| <= ShardCount(total, c, maxShardBytes, workers)
    ensures total > 0 ==>
              && (forall i :: 0 <= i < |ranges| - 1 ==> ranges[i].count == PerShard(total, c, maxShardBytes, workers))
              && ranges[|ranges| - 1].count <= PerShard(total, c, maxShardBytes, workers)
  {
    ranges := [];
    if total <= 0 {
      return;
    }
    var shardCount := ShardCount(total, c, maxShardBytes, workers);
    var perShard := PerShard(total, c, maxShardBytes, workers);
    PerShardFits(total, c, maxShardBytes, workers);
    var start: nat := 0;
    for shardIndex := 0 to shardCount
      invariant |ranges| <= shardIndex && start <= total && Tiles(ranges, start)
      invariant start < total ==> |ranges| == shardIndex && start == shardIndex * perShard
      invariant forall i :: 0 <= i < |ranges| ==> ranges[i].count <= perShard
      invariant forall i :: 0 <= i < |ranges| - (if start < total then 0 else 1) ==> ranges[i].count == perShard
    {
      var remaining := total - start;
      if remaining <= 0 {
        break;
      }
      var count := Min(perShard, remaining);
      assert (shardIndex + 1) * perShard == shardIndex * perShard + perShard;
      ranges := AddRange(ranges, start, count);
      start := start + count;
    }
  }

  function AddRange(ranges: seq<PlanRange>, start: nat, count: nat): (r: seq<PlanRange>)
    requires Tiles(ranges, start) && count > 0
    ensures Tiles(r, start + count)
  {
    var r := ranges + [PlanRange(|ranges|, start, count)];
    assert r[..|ranges|] == ranges;
    r
  }

  // ---------- the rows of a plan ----------

  /** The rows the ranges produce, one list per range. */
  function RangeRows(docs: seq<seq<int>>, c: nat, r: PlanRange): seq<Sample>
    requires c > 0 && r.start + r.count <= Windows(|Flatten(docs)|, c)
  {
    Rows(docs, c, r.start, r.count)
  }

  ghost predicate Available(docs: seq<seq<int>>, c: nat, ranges: seq<PlanRange>) {
    c > 0 && forall i :: 0 <= i < |ranges| ==> ranges[i].start + ranges[i].count <= Windows(|Flatten(docs)|, c)
  }

  /** One finished shard. */
  datatype ShardRef = ShardRef(name: string, rows: seq<Sample>)

  function ShardName(split: string, shardIndex: nat): string {
    split + "-" + Padded(shardIndex, 5) + ".gdds"
  }

  function RefOf(split: string, docs: seq<seq<int>>, c: nat, r: PlanRange): ShardRef
    requires c > 0 && r.start + r.count <= Windows(|Flatten(docs)|, c)
  {
    ShardRef(ShardName(split, r.shardIndex), RangeRows(docs, c, r))
  }

  /** The shards of a plan, in plan order. */
  ghost function PlanRefs(split: string, docs: seq<seq<int>>, c: nat, ranges: seq<PlanRange>): (refs: seq<ShardRef>)
    requires Available(docs, c, ranges)
    ensures |refs| == |ranges|
    ensures forall i :: 0 <= i < |ranges| ==> refs[i] == RefOf(split, docs, c, ranges[i])
  {
    if ranges == [] then []
    else PlanRefs(split, docs, c, ranges[..|ranges| - 1]) + [RefOf(split, docs, c, ranges[|ranges| - 1])]
  }

  function AllRows(refs: seq<ShardRef>): seq<Sample> {
    if refs == [] then [] else AllRows(refs[..|refs| - 1]) + refs[|refs| - 1].rows
  }

  lemma {:induction false} TilesAvailable(docs: seq<seq<int>>, c: nat, ranges: seq<PlanRange>, total: nat)
    requires c > 0 && Tiles(ranges, total) && total <= Windows(|Flatten(docs)|, c)
    ensures Available(docs, c, ranges)
  {
    if ranges != [] {
      var n := |ranges| - 1;
      TilesAvailable(docs, c, ranges[..n], ranges[n].start);
      assert forall i :: 0 <= i < n ==> ranges[i] == ranges[..n][i];
    }
  }

  lemma {:induction false} PlanRowsSnoc(split: string, docs: seq<seq<int>>, c: nat, ranges: seq<PlanRange>)
    requires Available(docs, c, ranges) && ranges != []
    ensures Available(docs, c, ranges[..|ranges| - 1])
    ensures AllRows(PlanRefs(split, docs, c, ranges)) ==
            AllRows(PlanRefs(split, docs, c, ranges[..|ranges| - 1])) + RangeRows(docs, c, ranges[|ranges| - 1])
  {
    var n := |ranges| - 1;
    var refs := PlanRefs(split, docs, c, ranges);
    assert refs[..n] == PlanRefs(split, docs, c, ranges[..n]);
    assert refs[n] == RefOf(split, docs, c, ranges[n]);
  }

  /** Concatenating the planned ranges gives the first `total` rows of the stream: packing in
      parallel refines packing sequentially. */
  lemma {:induction false} PlanRowsAreStreamRows(split: string, docs: seq<seq<int>>, c: nat, ranges: seq<PlanRange>,
        total: nat)
    requires c > 0 && Tiles(ranges, total) && total <= Windows(|Flatten(docs)|, c)
    ensures Available(docs, c, ranges)
    ensures AllRows(PlanRefs(split, docs, c, ranges)) == Rows(docs, c, 0, total)
  {
    TilesAvailable(docs, c, ranges, total);
    if ranges == [] {
      assert Rows(docs, c, 0, 0) == [];
    } else {
      var r := ranges[|ranges| - 1];
      PlanRowsAreStreamRows(split, docs, c, ranges[..|ranges| - 1], r.start);
      PlanRowsSnoc(split, docs, c, ranges);
      RowsJoin(docs, c, r);
    }
  }

  lemma {:induction false} RowsJoin(docs: seq<seq<int>>, c: nat, r: PlanRange)
    requires c > 0 && r.start + r.count <= Windows(|Flatten(docs)|, c)
    ensures Rows(docs, c, 0, r.start) + RangeRows(docs, c, r) == Rows(docs, c, 0, r.start + r.count)
  {
    RowsSplit(docs, c, 0, r.start, r.count);
  }

  // ---------- putting shards back in order ----------

  /** Sorting by name, as `list.sort(key=name)` does: stable insertion. */
  function InsertByName(sorted: seq<ShardRef>, x: ShardRef): (r: seq<ShardRef>)
    ensures multiset(r) == multiset(sorted) + multiset{x}
  {
    if sorted == [] then [x]
    else
      var n := |sorted| - 1;
      assert sorted == sorted[..n] + [sorted[n]];
      if Less(x.name, sorted[n].name) then InsertByName(sorted[..n], x) + [sorted[n]]
      else sorted + [x]
  }

  function SortByName(refs: seq<ShardRef>): (r: seq<ShardRef>)
    ensures multiset(r) == multiset(refs)
  {
    if refs == [] then []
    else
      var n := |refs| - 1;
      assert refs == refs[..n] + [refs[n]];
      InsertByName(SortByName(refs[..n]), refs[n])
  }

  ghost predicate Ascending(refs: seq<ShardRef>) {
    forall i, j :: 0 <= i < j < |refs| ==> !Less(refs[j].name, refs[i].name)
  }

  ghost predicate StrictlyAscending(refs: seq<ShardRef>) {
    forall i, j :: 0 <= i < j < |refs| ==> Less(refs[i].name, refs[j].name)
  }

  lemma {:induction false} InsertAscending(sorted: seq<ShardRef>, x: ShardRef)
    requires Ascending(sorted)
    ensures Ascending(InsertByName(sorted, x))
  {
    if sorted != [] {
      var n := |sorted| - 1;
      var last := sorted[n];
      if Less(x.name, last.name) {
        var r := InsertByName(sorted[..n], x);
        InsertAscending(sorted[..n], x);
        forall i | 0 <= i < |r|
          ensures !Less(last.name, r[i].name)
        {
          assert r[i] in multiset(r);
          assert r[i] == x || r[i] in sorted[..n];
          LessTrichotomy(x.name, last.name);
        }
      } else {
        forall i | 0 <= i < |sorted|
          ensures !Less(x.name, sorted[i].name)
        {
          LessTrichotomy(last.name, last.name);
          NotLessTransitive(x.name, last.name, sorted[i].name);
        }
      }
    }
  }

  lemma {:induction false} NotLessTransitive(a: string, b: string, c: string)
    requires !Less(a, b) && !Less(b, c)
    ensures !Less(a, c)
  {
    if Less(a, c) {
      LessTrichotomy(a, b);
      if Less(b, a) {
        LessTransitive(b, a, c);
      }
    }
  }

  lemma {:induction false} SortAscending(refs: seq<ShardRef>)
    ensures Ascending(SortByName(refs))
  {
    if refs != [] {
      SortAscending(refs[..|refs| - 1]);
      InsertAscending(SortByName(refs[..|refs| - 1]), refs[|refs| - 1]);
    }
  }

  /** The greatest element comes last in both arrangements. */
  lemma {:induction false} SameLast(a: seq<ShardRef>, b: seq<ShardRef>)
    requires Ascending(a) && StrictlyAscending(b) && multiset(a) == multiset(b) && a != [] && b != []
    ensures a[|a| - 1] == b[|b| - 1]
  {
    var x, y := a[|a| - 1], b[|b| - 1];
    assert x in multiset(b) && y in multiset(a);
    var i :| 0 <= i < |b| && b[i] == x;
    var j :| 0 <= j < |a| && a[j] == y;
    LessTrichotomy(x.name, y.name);
  }

  lemma {:induction false} DropLastMultiset<T>(a: seq<T>)
    requires a != []
    ensures multiset(a[..|a| - 1]) == multiset(a) - multiset{a[|a| - 1]}
  {
    assert a == a[..|a| - 1] + [a[|a| - 1]];
  }

  /** An ascending list is determined by its elements when some arrangement of them ascends strictly. */
  lemma {:induction false} AscendingUnique(a: seq<ShardRef>, b: seq<ShardRef>)
    requires Ascending(a) && StrictlyAscending(b) && multiset(a) == multiset(b)
    ensures a == b
  {
    assert |multiset(a)| == |a| && |multiset(b)| == |b|;
    if b != [] {
      var n := |b| - 1;
      SameLast(a, b);
      DropLastMultiset(a);
      DropLastMultiset(b);
      AscendingUnique(a[..n], b[..n]);
      assert a == a[..n] + [a[n]] && b == b[..n] + [b[n]];
    }
  }

  /** Completion order does not matter: sorting by name restores the plan order whenever the
      plan order is the order of the names. */
  lemma {:induction false} SortRestores(refs: seq<ShardRef>, plan: seq<ShardRef>)
    requires multiset(refs) == multiset(plan) && StrictlyAscending(plan)
    ensures SortByName(refs) == plan
  {
    SortAscending(refs);
    AscendingUnique(SortByName(refs), plan);
  }

  // ---------- file names ----------

  /** With at most 100000 shards the five-digit names sort like the shard numbers. */
  lemma {:induction false} NamesInOrder(split: string, i: nat, j: nat)
    requires i < j < 100_000
    ensures Less(ShardName(split, i), ShardName(split, j))
  {
    assert Pow10(5) == 10 * Pow10(4) && Pow10(4) == 10 * Pow10(3);
    PaddedIsFixed(i, 5);
    PaddedIsFixed(j, 5);
    FixedOrder(i, j, 5);
    LessSuffix(Fixed(i, 5), Fixed(j, 5), ".gdds", ".gdds");
    LessPrefix(split + "-", Fixed(i, 5) + ".gdds", Fixed(j, 5) + ".gdds");
    assert ShardName(split, i) == (split + "-") + (Fixed(i, 5) + ".gdds");
    assert ShardName(split, j) == (split + "-") + (Fixed(j, 5) + ".gdds");
  }

  /** The sixth digit breaks the order: shard 100000 sorts before shard 99999. */
  lemma {:induction false} HundredThousand()
    ensures Digits(100_000) == "100000"
  {
    assert Digits(100) == "100";
    assert Digits(1_000) == "1000";
    assert Digits(10_000) == "10000";
  }

  lemma {:induction false} OneLess()
    ensures Digits(99_999) == "99999"
  {
    assert Digits(999) == "999";
    assert Digits(9_999) == "9999";
  }

  lemma {:induction false} NamesOutOfOrder(split: string)
    ensures Less(ShardName(split, 100_000), ShardName(split, 99_999))
  {
    var a, b := Digits(100_000), Digits(99_999);
    HundredThousand();
    OneLess();
    assert Padded(100_000, 5) == a && Padded(99_999, 5) == b;
    assert Less(a + ".gdds", b + ".gdds");
    LessPrefix(split + "-", a + ".gdds", b + ".gdds");
    assert ShardName(split, 100_000) == (split + "-") + (a + ".gdds");
    assert ShardName(split, 99_999) == (split + "-") + (b + ".gdds");
  }

  /** The name order is the shard order exactly up to 100000 shards. */
  lemma {:induction false} NameOrderExact(split: string, n: nat)
    ensures (forall i, j :: 0 <= i < j < n ==> Less(ShardName(split, i), ShardName(split, j))) <==> n <= 100_000
  {
    if n <= 100_000 {
      forall i: nat, j: nat | i < j < n
        ensures Less(ShardName(split, i), ShardName(split, j))
      {
        NamesInOrder(split, i, j);
      }
    } else {
      NamesOutOfOrder(split);
      LessTrichotomy(ShardName(split, 99_999), ShardName(split, 100_000));
    }
  }

  lemma {:induction false} TilesNumbers(ranges: seq<PlanRange>, total: nat)
    requires Tiles(ranges, total)
    ensures forall i :: 0 <= i < |ranges| ==> ranges[i].shardIndex == i
  {
    if ranges != [] {
      var n := |ranges| - 1;
      TilesNumbers(ranges[..n], ranges[n].start);
      assert forall i :: 0 <= i < n ==> ranges[i] == ranges[..n][i];
    }
  }

  /** Sorting by name returns the plan order, whatever the completion order, exactly when there
      are at most 100000 shards. */
  lemma {:induction false} SortedIsPlanExactly(split: string, docs: seq<seq<int>>, c: nat, ranges: seq<PlanRange>,
        total: nat, refs: seq<ShardRef>)
    requires Tiles(ranges, total) && Available(docs, c, ranges)
    requires multiset(refs) == multiset(PlanRefs(split, docs, c, ranges))
    ensures SortByName(refs) == PlanRefs(split, docs, c, ranges) <==> |ranges| <= 100_000
  {
    var plan := PlanRefs(split, docs, c, ranges);
    TilesNumbers(ranges, total);
    assert forall i :: 0 <= i < |plan| ==> plan[i].name == ShardName(split, i);
    if |ranges| <= 100_000 {
      forall i, j | 0 <= i < j < |plan|
        ensures Less(plan[i].name, plan[j].name)
      {
        NamesInOrder(split, i, j);
      }
      SortRestores(refs, plan);
    } else {
      NamesOutOfOrder(split);
      SortAscending(refs);
      assert plan[99_999].name == ShardName(split, 99_999) && plan[100_000].name == ShardName(split, 100_000);
    }
  }

  // ---------- the whole job ----------

  /** Sum of the token counts of the shards. */
  function TotalTokens(shards: seq<Shard>): nat {
    if shards == [] then 0 else TotalTokens(shards[..|shards| - 1]) + |shards[|shards| - 1].tokens|
  }

  lemma {:induction false} DocumentsLength(shard: Shard, n: nat)
    requires shard.Valid() && n < |shard.offsets|
    ensures |Flatten(shard.Documents(n))| == shard.offsets[n]
  {
    if n > 0 {
      DocumentsLength(shard, n - 1);
      assert shard.DocumentOk(n - 1);
      FlattenSnoc(shard.Documents(n - 1), shard.Document(n - 1));
    }
  }

  lemma {:induction false} TotalTokensIsStreamLength(shards: seq<Shard>)
    requires ValidShards(shards)
    ensures TotalTokens(shards) == |Flatten(AllDocuments(shards))|
  {
    if shards != [] {
      var rest, last := shards[..|shards| - 1], shards[|shards| - 1];
      assert last.Valid();
      TotalTokensIsStreamLength(rest);
      DocumentsLength(last, |last.offsets| - 1);
      FlattenAppend(AllDocuments(rest), last.Documents(|last.offsets| - 1));
    }
  }

  /** The shard numbers 0, ..., `n - 1`. */
  function Iota(n: nat): (s: seq<nat>)
    ensures |s| == n && forall i :: 0 <= i < n ==> s[i] == i
  {
    seq(n, i => i)
  }

  predicate InRange(order: seq<nat>, n: nat) {
    forall i :: 0 <= i < |order| ==> order[i] < n
  }

  /** The shards finished so far, in completion order. */
  ghost function RefsInOrder(plan: seq<ShardRef>, order: seq<nat>): seq<ShardRef>
    requires InRange(order, |plan|)
  {
    if order == [] then [] else RefsInOrder(plan, order[..|order| - 1]) + [plan[order[|order| - 1]]]
  }

  lemma {:induction false} RefsAppend(plan: seq<ShardRef>, a: seq<nat>, b: seq<nat>)
    requires InRange(a, |plan|) && InRange(b, |plan|)
    ensures RefsInOrder(plan, a + b) == RefsInOrder(plan, a) + RefsInOrder(plan, b)
  {
    if b == [] {
      assert a + b == a;
    } else {
      assert (a + b)[..|a + b| - 1] == a + b[..|b| - 1];
      RefsAppend(plan, a, b[..|b| - 1]);
    }
  }

  /** Any order that visits every range once produces the same collection of shards. */
  lemma {:induction false} RefsPermuted(plan: seq<ShardRef>, a: seq<nat>, b: seq<nat>)
    requires multiset(a) == multiset(b) && InRange(a, |plan|) && InRange(b, |plan|)
    ensures multiset(RefsInOrder(plan, a)) == multiset(RefsInOrder(plan, b))
  {
    if a == [] {
      assert |multiset(b)| == |b|;
    } else {
      var n, x := |a| - 1, a[|a| - 1];
      var i := FindIn(b, x, a);
      RemoveBoth(a, b, i);
      RefsPermuted(plan, a[..n], b[..i] + b[i + 1..]);
      RefsWithout(plan, b[..i], x, b[i + 1..]);
    }
  }

  lemma {:induction false} FindIn(b: seq<nat>, x: nat, a: seq<nat>) returns (i: nat)
    requires multiset(a) == multiset(b) && x in a
    ensures i < |b| && b[i] == x
  {
    assert x in multiset(b);
    i :| 0 <= i < |b| && b[i] == x;
  }

  lemma {:induction false} RemoveBoth(a: seq<nat>, b: seq<nat>, i: nat)
    requires a != [] && multiset(a) == multiset(b) && i < |b| && b[i] == a[|a| - 1]
    ensures multiset(a[..|a| - 1]) == multiset(b[..i] + b[i + 1..])
    ensures b == b[..i] + [b[i]] + b[i + 1..]
  {
    DropLastMultiset(a);
    assert b == b[..i] + [b[i]] + b[i + 1..];
  }

  lemma {:induction false} RefsWithout(plan: seq<ShardRef>, p: seq<nat>, x: nat, q: seq<nat>)
    requires x < |plan| && InRange(p, |plan|) && InRange(q, |plan|)
    ensures multiset(RefsInOrder(plan, p + [x] + q)) == multiset(RefsInOrder(plan, p + q)) + multiset{plan[x]}
  {
    RefsAppend(plan, p, q);
    RefsAppend(plan, p, [x]);
    RefsAppend(plan, p + [x], q);
    assert RefsInOrder(plan, [x]) == [plan[x]] by {
      assert [x][..0] == [];
    }
  }

  lemma {:induction false} RefsInPlanOrder(plan: seq<ShardRef>, n: nat)
    requires n <= |plan|
    ensures RefsInOrder(plan, Iota(n)) == plan[..n]
  {
    if n > 0 {
      RefsInPlanOrder(plan, n - 1);
      assert Iota(n)[..n - 1] == Iota(n - 1);
    }
  }

  lemma {:induction false} OrderIsPermutation(plan: seq<ShardRef>, order: seq<nat>)
    requires multiset(order) == multiset(Iota(|plan|))
    ensures InRange(order, |plan|)
    ensures multiset(RefsInOrder(plan, order)) == multiset(plan)
  {
    forall i | 0 <= i < |order|
      ensures order[i] < |plan|
    {
      assert order[i] in multiset(Iota(|plan|));
      assert order[i] in Iota(|plan|);
    }
    RefsPermuted(plan, order, Iota(|plan|));
    RefsInPlanOrder(plan, |plan|);
    assert plan[..|plan|] == plan;
  }

  lemma {:induction false} NamesDiffer(split: string, i: nat, j: nat)
    requires ShardName(split, i) == ShardName(split, j)
    ensures i == j
  {
    PaddedValue(i, 5);
    PaddedValue(j, 5);
    NameMiddle(split, i);
    NameMiddle(split, j);
  }

  lemma {:induction false} NameMiddle(split: string, i: nat)
    ensures |ShardName(split, i)| == |split| + 6 + |Padded(i, 5)|
    ensures ShardName(split, i)[|split| + 1..|split| + 1 + |Padded(i, 5)|] == Padded(i, 5)
  {
    assert |".gdds"| == 5;
  }
}
