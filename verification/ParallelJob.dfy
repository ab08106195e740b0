/** The whole packing job: plan, run the workers in any completion order, sort the shards by name
    (`write_gdds_split_parallel`). */
module ParallelJob {
  import opened Seqs
  import opened Bytes
  import opened Packing
  import opened Parallel
  import opened RangeWorker

  /** What the job is given, the tokens aside. */
  datatype Job = Job(split: string, c: nat, maxShardBytes: int, batchSize: int, schemaHash: nat)

  /** The file of range `i` is there and holds exactly the rows of the range. */
  ghost predicate FileOk(job: Job, docs: seq<seq<int>>, ranges: seq<PlanRange>, files: map<string, Data>, i: nat)
    requires i < |ranges|
  {
    && ShardName(job.split, i) in files
    && exists w: ShardOutput ::
         w.file == files[ShardName(job.split, i)] && HoldsRange(w, docs, job.c, ranges[i], job.schemaHash)
  }

  /** The file of range `i` keeps the limit. */
  ghost predicate FileFits(job: Job, files: map<string, Data>, i: nat) {
    ShardName(job.split, i) in files && |files[ShardName(job.split, i)]| <= job.maxShardBytes
  }

  /** The files of the ranges in `order`. */
  ghost predicate FilesOf(job: Job, docs: seq<seq<int>>, ranges: seq<PlanRange>, files: map<string, Data>,
        order: seq<nat>)
    requires InRange(order, |ranges|)
  {
    forall k :: 0 <= k < |order| ==> FileDone(job, docs, ranges, files, order[k])
  }

  ghost predicate FileDone(job: Job, docs: seq<seq<int>>, ranges: seq<PlanRange>, files: map<string, Data>, i: nat)
    requires i < |ranges|
  {
    && FileOk(job, docs, ranges, files, i)
    && (WellPlanned(docs, job.c, job.maxShardBytes, job.batchSize) ==> FileFits(job, files, i))
  }

  /** What the planner promises of its ranges. */
  ghost predicate Planned(job: Job, docs: seq<seq<int>>, ranges: seq<PlanRange>) {
    && Available(docs, job.c, ranges)
    && forall i :: 0 <= i < |ranges| ==>
      ranges[i].shardIndex == i && 0 < ranges[i].count <= MaxSamplesPerShard(job.c, job.maxShardBytes)
  }

  lemma {:induction false} TilesCounts(ranges: seq<PlanRange>, total: nat)
    requires Tiles(ranges, total)
    ensures forall i :: 0 <= i < |ranges| ==> ranges[i].count > 0
  {
    if ranges != [] {
      var n := |ranges| - 1;
      TilesCounts(ranges[..n], ranges[n].start);
      assert forall i :: 0 <= i < n ==> ranges[i] == ranges[..n][i];
    }
  }

  /** The file of another range stays as it is. */
  lemma {:induction false} FileKept(job: Job, docs: seq<seq<int>>, ranges: seq<PlanRange>, files: map<string, Data>,
        j: nat, i: nat, file: Data)
    requires j < |ranges| && j != i && FileDone(job, docs, ranges, files, j)
    ensures FileDone(job, docs, ranges, files[ShardName(job.split, i) := file], j)
  {
    if ShardName(job.split, j) == ShardName(job.split, i) {
      NamesDiffer(job.split, j, i);
    }
  }

  /** One more file does not touch the others. */
  lemma {:induction false} OneMoreFile(job: Job, docs: seq<seq<int>>, ranges: seq<PlanRange>, files: map<string, Data>,
        order: seq<nat>, i: nat, w: ShardOutput)
    requires InRange(order, |ranges|) && FilesOf(job, docs, ranges, files, order)
    requires i < |ranges| && HoldsRange(w, docs, job.c, ranges[i], job.schemaHash)
    requires WellPlanned(docs, job.c, job.maxShardBytes, job.batchSize) ==> |w.file| <= job.maxShardBytes
    ensures FilesOf(job, docs, ranges, files[ShardName(job.split, i) := w.file], order + [i])
  {
    var more, next := files[ShardName(job.split, i) := w.file], order + [i];
    assert FileDone(job, docs, ranges, more, i);
    forall k | 0 <= k < |next|
      ensures FileDone(job, docs, ranges, more, next[k])
    {
      if next[k] != i {
        assert FileDone(job, docs, ranges, files, order[k]);
        FileKept(job, docs, ranges, files, next[k], i, w.file);
      }
    }
  }

  lemma {:induction false} AllFiles(job: Job, docs: seq<seq<int>>, ranges: seq<PlanRange>, files: map<string, Data>,
        order: seq<nat>)
    requires multiset(order) == multiset(Iota(|ranges|)) && InRange(order, |ranges|)
    requires FilesOf(job, docs, ranges, files, order)
    ensures FilesOf(job, docs, ranges, files, Iota(|ranges|))
  {
    forall i | 0 <= i < |ranges|
      ensures FileDone(job, docs, ranges, files, i)
    {
      assert Iota(|ranges|)[i] in multiset(order);
      var k :| 0 <= k < |order| && order[k] == i;
    }
  }

  /** `write_gdds_split_parallel`; `None` stands for the exception of a worker. With documents none of which
      is one token long it succeeds, and every file keeps the limit. When it succeeds, the file of every
      range holds exactly its rows; the shards are returned in plan order exactly when there are at most
      100000 of them, and their rows are then the first `total` rows of the sequential packer. */
  method WriteSplitParallel(shards: seq<Shard>, job: Job, maxSamples: int, workers: int)
    returns (result: Option<seq<ShardRef>>, files: map<string, Data>, ranges: seq<PlanRange>)
    requires ValidShards(shards) && job.c >= 2
    ensures WellPlanned(AllDocuments(shards), job.c, job.maxShardBytes, job.batchSize) ==> result.Some?
    ensures Tiles(ranges, Max(0, Min(maxSamples, Windows(|Flatten(AllDocuments(shards))|, job.c))))
    ensures Available(AllDocuments(shards), job.c, ranges)
    ensures result.Some? ==>
              var docs, refs := AllDocuments(shards), result.value;
              && FilesOf(job, docs, ranges, files, Iota(|ranges|))
              && multiset(refs) == multiset(PlanRefs(job.split, docs, job.c, ranges))
              && (refs == PlanRefs(job.split, docs, job.c, ranges) <==> |ranges| <= 100_000)
    ensures result.Some? && |ranges| <= 100_000 ==>
              AllRows(result.value)
              == Rows(AllDocuments(shards), job.c, 0,
                Max(0, Min(maxSamples, Windows(|Flatten(AllDocuments(shards))|, job.c))))
  {
    var totalTokens := TotalTokens(shards);
    ghost var docs := AllDocuments(shards);
    TotalTokensIsStreamLength(shards);
    CapacityCountsWindows(totalTokens, job.c);
    var total := Min(maxSamples, Capacity(totalTokens, job.c));
    if total <= 0 {
      return Some([]), map[], [];
    }
    ranges := PlanRanges(total, job.c, job.maxShardBytes, workers);
    TilesAvailable(docs, job.c, ranges, total);
    TilesNumbers(ranges, total);
    TilesCounts(ranges, total);
    var refs;
    refs, files := RunWorkers(shards, job, ranges);
    if refs.None? {
      return None, files, ranges;
    }
    SortedIsPlanExactly(job.split, docs, job.c, ranges, total, refs.value);
    PlanRowsAreStreamRows(job.split, docs, job.c, ranges, total);
    result := Some(SortByName(refs.value));
  }

  /** The shards and files of the ranges in `order`. */
  ghost predicate Progress(job: Job, docs: seq<seq<int>>, ranges: seq<PlanRange>, refs: seq<ShardRef>,
        files: map<string, Data>, order: seq<nat>)
    requires Available(docs, job.c, ranges) && InRange(order, |ranges|)
  {
    && refs == RefsInOrder(PlanRefs(job.split, docs, job.c, ranges), order)
    && FilesOf(job, docs, ranges, files, order)
  }

  /** One worker, and what its result adds. */
  method RunWorker(shards: seq<Shard>, job: Job, ranges: seq<PlanRange>, i: nat, refs: seq<ShardRef>,
        files: map<string, Data>, ghost order: seq<nat>)
    returns (ok: bool, refs': seq<ShardRef>, files': map<string, Data>)
    requires ValidShards(shards) && Planned(job, AllDocuments(shards), ranges)
    requires i < |ranges| && InRange(order, |ranges|)
    requires Progress(job, AllDocuments(shards), ranges, refs, files, order)
    ensures WellPlanned(AllDocuments(shards), job.c, job.maxShardBytes, job.batchSize) ==> ok
    ensures ok ==> Progress(job, AllDocuments(shards), ranges, refs', files', order + [i])
  {
    var written := WriteRange(shards, job.c, ranges[i], job.schemaHash, job.maxShardBytes, job.batchSize);
    if written.None? {
      return false, refs, files;
    }
    OneMoreFile(job, AllDocuments(shards), ranges, files, order, i, written.value);
    OneMoreRef(job, AllDocuments(shards), ranges, order, i);
    refs' := refs + [ShardRef(ShardName(job.split, i), written.value.rows)];
    files' := files[ShardName(job.split, i) := written.value.file];
    ok := true;
  }

  lemma {:induction false} OneMoreRef(job: Job, docs: seq<seq<int>>, ranges: seq<PlanRange>, order: seq<nat>, i: nat)
    requires Planned(job, docs, ranges) && i < |ranges| && InRange(order, |ranges|)
    ensures var plan := PlanRefs(job.split, docs, job.c, ranges);
            RefsInOrder(plan, order + [i])
            == RefsInOrder(plan, order) + [ShardRef(ShardName(job.split, i), RangeRows(docs, job.c, ranges[i]))]
  {
    assert (order + [i])[..|order|] == order;
  }

  /** The worker pool: every range is written once; the completion order is arbitrary, and the first
      exception ends the job. */
  method RunWorkers(shards: seq<Shard>, job: Job, ranges: seq<PlanRange>)
    returns (result: Option<seq<ShardRef>>, files: map<string, Data>)
    requires ValidShards(shards) && Planned(job, AllDocuments(shards), ranges)
    ensures WellPlanned(AllDocuments(shards), job.c, job.maxShardBytes, job.batchSize) ==> result.Some?
    ensures result.Some? ==>
              && FilesOf(job, AllDocuments(shards), ranges, files, Iota(|ranges|))
              && multiset(result.value) == multiset(PlanRefs(job.split, AllDocuments(shards), job.c, ranges))
  {
    var completion := CompletionOrder(|ranges|);
    OrderIsPermutation(PlanRefs(job.split, AllDocuments(shards), job.c, ranges), completion);
    result, files := RunInOrder(shards, job, ranges, completion);
    if result.Some? {
      AllFiles(job, AllDocuments(shards), ranges, files, completion);
    }
  }

  ghost predicate DoneTo(completion: seq<nat>, k: nat, done: seq<nat>, n: nat) {
    k <= |completion| && done == completion[..k] && InRange(done, n)
  }

  lemma {:induction false} NextDone(completion: seq<nat>, k: nat, done: seq<nat>, n: nat)
    requires k < |completion| && DoneTo(completion, k, done, n) && InRange(completion, n)
    ensures DoneTo(completion, k + 1, done + [completion[k]], n)
  {
  }

  lemma {:induction false} AllDone(completion: seq<nat>, done: seq<nat>, n: nat)
    requires DoneTo(completion, |completion|, done, n)
    ensures done == completion
  {
  }

  method RunInOrder(shards: seq<Shard>, job: Job, ranges: seq<PlanRange>, completion: seq<nat>)
    returns (result: Option<seq<ShardRef>>, files: map<string, Data>)
    requires ValidShards(shards) && Planned(job, AllDocuments(shards), ranges) && InRange(completion, |ranges|)
    ensures WellPlanned(AllDocuments(shards), job.c, job.maxShardBytes, job.batchSize) ==> result.Some?
    ensures result.Some? ==> Progress(job, AllDocuments(shards), ranges, result.value, files, completion)
  {
    var refs: seq<ShardRef> := [];
    files := map[];
    ghost var done: seq<nat> := [];
    for k := 0 to |completion|
      invariant DoneTo(completion, k, done, |ranges|)
      invariant Progress(job, AllDocuments(shards), ranges, refs, files, done)
    {
      var ok;
      ok, refs, files := RunWorker(shards, job, ranges, completion[k], refs, files, done);
      if !ok {
        return None, files;
      }
      NextDone(completion, k, done, |ranges|);
      done := done + [completion[k]];
    }
    AllDone(completion, done, |ranges|);
    result := Some(refs);
  }

  /** Any order in which each of `n` workers finishes once. */
  method CompletionOrder(n: nat) returns (order: seq<nat>)
    ensures multiset(order) == multiset(Iota(n))
  {
    order := Iota(n);
    order :| multiset(order) == multiset(Iota(n));
  }
}
