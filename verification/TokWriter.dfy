/** The sharded sequence writer (`gd_tok_writer_*`). */
module TokWriter {
  import opened Seqs
  import opened TokCorpus

  /** Finished shards and the sequences of the open one. */
  datatype State = State(done: seq<seq<seq<int>>>, current: seq<seq<int>>) {
    function Shards(): seq<seq<seq<int>>> {
      if current == [] then done else done + [current]
    }

    function All(): seq<seq<int>> { Flatten(done) + current }
  }

  /** A sequence the writer accepts: not empty, and small enough for a shard of its own. */
  predicate Acceptable(variable: bool, limit: nat, s: seq<int>) {
    s != [] && 4 * |s| + (if variable then 16 else 0) <= limit
  }

  /** One `gd_tok_writer_write_sequence`; false is `GD_ERR_INVALID_ARGUMENT`. */
  function Step(variable: bool, limit: nat, st: State, s: seq<int>): (State, bool) {
    if !Acceptable(variable, limit, s) then (st, false)
    else if st.current != []
      && ShardBytes(variable, st.current + [s]) > limit then (State(st.done + [st.current], [s]), true)
    else (State(st.done, st.current + [s]), true)
  }

  ghost predicate Sound(variable: bool, limit: nat, st: State) {
    && (forall k :: 0 <= k < |st.Shards()| ==> GoodShard(variable, limit, st.Shards()[k]))
    && (forall k :: 0 <= k < |st.done| ==> st.done[k] != [])
  }

  ghost predicate GoodShard(variable: bool, limit: nat, ss: seq<seq<int>>) {
    ss != [] && NoEmpty(ss) && ShardBytes(variable, ss) <= limit
  }

  lemma {:induction false} OneBytes(variable: bool, s: seq<int>)
    ensures ShardBytes(variable, [s]) == 4 * |s| + (if variable then 16 else 0)
  {
    FlattenSnoc([], s);
    assert [] + [s] == [s];
  }

  /** Writing keeps every shard non-empty and within the limit, and adds exactly the sequence. */
  lemma {:induction false} StepKeeps(variable: bool, limit: nat, st: State, s: seq<int>)
    requires Sound(variable, limit, st)
    ensures var (next, ok) := Step(variable, limit, st, s);
            && Sound(variable, limit, next)
            && (ok <==> Acceptable(variable, limit, s))
            && next.All() == (if ok then st.All() + [s] else st.All())
  {
    OneBytes(variable, s);
    if Acceptable(variable, limit, s) {
      if st.current != [] && ShardBytes(variable, st.current + [s]) > limit {
        CloseKeeps(variable, limit, st);
        OpensShard(variable, limit, State(st.done + [st.current], []), s);
      } else if st.current == [] {
        assert st.current + [s] == [s];
        OpensShard(variable, limit, st, s);
      } else {
        JoinsShard(variable, limit, st, s);
      }
    }
  }

  lemma {:induction false} OpensShard(variable: bool, limit: nat, st: State, s: seq<int>)
    requires Sound(variable, limit, st) && st.current == [] && Acceptable(variable, limit, s)
    ensures Sound(variable, limit, State(st.done, [s])) && State(st.done, [s]).All() == st.All() + [s]
  {
    OneBytes(variable, s);
    var next := State(st.done, [s]);
    forall k | 0 <= k < |next.Shards()|
      ensures GoodShard(variable, limit, next.Shards()[k])
    {
      if k < |st.done| {
        assert next.Shards()[k] == st.Shards()[k];
      }
    }
  }

  lemma {:induction false} JoinsShard(variable: bool, limit: nat, st: State, s: seq<int>)
    requires Sound(variable, limit, st) && st.current != [] && s != []
        && ShardBytes(variable, st.current + [s]) <= limit
    ensures var next := State(st.done, st.current + [s]); Sound(variable, limit, next) && next.All() == st.All() + [s]
  {
    var next := State(st.done, st.current + [s]);
    assert st.Shards()[|st.done|] == st.current;
    forall k | 0 <= k < |next.Shards()|
      ensures GoodShard(variable, limit, next.Shards()[k])
    {
      if k < |st.done| {
        assert next.Shards()[k] == st.Shards()[k];
      }
    }
  }

  /** The shards joined are the sequences in order. */
  lemma {:induction false} ShardsAreAll(st: State)
    ensures Flatten(st.Shards()) == st.All()
  {
    FlattenSnoc(st.done, st.current);
  }

  function AllShards(variable: bool, done: seq<seq<seq<int>>>): (r: seq<TokShard>)
    ensures |r| == |done| && forall k :: 0 <= k < |r| ==> r[k] == ShardOf(variable, done[k])
  {
    seq(|done|, k requires 0 <= k < |done| => ShardOf(variable, done[k]))
  }

  lemma {:induction false} AllShardsSnoc(variable: bool, done: seq<seq<seq<int>>>, ss: seq<seq<int>>)
    ensures AllShards(variable, done + [ss]) == AllShards(variable, done) + [ShardOf(variable, ss)]
  {
  }

  class Writer {
    const variableLength: bool
    const maxShardBytes: nat
    var isOpen: bool
    /** The token and offset files of the open shard. */
    var tokens: seq<int>
    var offsets: seq<nat>
    var curSequences: nat
    var curTokens: nat
    var curTokenBytes: nat
    var curOffsetBytes: nat
    var nextShardIndex: nat
    var totalTokens: nat
    var totalSequences: nat
    /** The finished shards with their manifest entries. */
    var shards: seq<TokShard>
    ghost var model: State

    ghost predicate Valid()
      reads this
    {
      && maxShardBytes > 0
      && Sound(variableLength, maxShardBytes, model)
      && shards == AllShards(variableLength, model.done)
      && (isOpen ==> OpenFiles(model.current))
      && (!isOpen ==> model.current == [])
      && nextShardIndex == |model.done| + (if isOpen then 1 else 0)
      && Totals(model.All())
    }

    ghost predicate Totals(all: seq<seq<int>>)
      reads `totalSequences, `totalTokens
    {
      totalSequences == |all| && totalTokens == |Flatten(all)|
    }

    /** The files and counters of an open shard with these sequences. */
    ghost predicate OpenFiles(ss: seq<seq<int>>)
      reads `tokens, `offsets, `curSequences, `curTokens, `curTokenBytes, `curOffsetBytes
    {
      && tokens == Flatten(ss) && offsets == (if variableLength then Offsets(ss) else [])
      && curSequences == |ss| && curTokens == |tokens| && curTokenBytes == 4 * |tokens|
      && curOffsetBytes == (if variableLength then 8 * (|ss| + 1) else 0)
    }

    /** `gd_tok_writer_open`. */
    constructor (variableLength: bool, maxShardBytes: nat)
      requires maxShardBytes > 0
      ensures Valid() && model == State([], []) && !isOpen
      ensures this.variableLength == variableLength && this.maxShardBytes == maxShardBytes
    {
      this.variableLength, this.maxShardBytes := variableLength, maxShardBytes;
      isOpen, tokens, offsets := false, [], [];
      curSequences, curTokens, curTokenBytes, curOffsetBytes := 0, 0, 0, 0;
      nextShardIndex, totalTokens, totalSequences, shards := 0, 0, 0, [];
      model := State([], []);
    }

    /** `gd_tok_writer_start_shard`. */
    method StartShard()
      requires Valid() && !isOpen
      modifies this
      ensures Valid() && isOpen && model == old(model)
    {
      nextShardIndex := nextShardIndex + 1;
      tokens := [];
      if variableLength {
        offsets := [0];
        curOffsetBytes := 8;
      } else {
        offsets := [];
        curOffsetBytes := 0;
      }
      curSequences, curTokens, curTokenBytes := 0, 0, 0;
      isOpen := true;
    }

    /** `gd_tok_writer_finish_shard`. */
    method FinishShard()
      requires Valid() && (isOpen ==> model.current != [])
      modifies this
      ensures Valid() && !isOpen && model == State(old(model).Shards(), [])
    {
      if isOpen {
        CloseShard();
      }
    }

    method CloseShard()
      requires Valid() && isOpen && model.current != []
      modifies this
      ensures Valid() && !isOpen && model == State(old(model).Shards(), [])
    {
      AllShardsSnoc(variableLength, model.done, model.current);
      CloseKeeps(variableLength, maxShardBytes, model);
      isOpen := false;
      var entry := TokShard(tokens, offsets, curSequences, curTokens, curTokenBytes + curOffsetBytes);
      assert entry == ShardOf(variableLength, model.current);
      shards := shards + [entry];
      model := State(model.Shards(), []);
    }

    /** `gd_tok_writer_write_sequence`: prefix, body and suffix form one sequence. */
    method WriteSequence(prefix: seq<int>, body: seq<int>, suffix: seq<int>) returns (ok: bool)
      requires Valid() && (isOpen ==> model.current != [])
      modifies this
      ensures Valid() && (isOpen ==> model.current != [])
      ensures (model, ok) == Step(variableLength, maxShardBytes, old(model), prefix + body + suffix)
    {
      ghost var s := prefix + body + suffix;
      var total := |prefix| + |body| + |suffix|;
      if total == 0 {
        return false;
      }
      var seqBytes := 4 * total;
      if variableLength {
        if seqBytes + 8 + 8 > maxShardBytes {
          return false;
        }
      } else if seqBytes > maxShardBytes {
        return false;
      }
      Prepare(seqBytes, s);
      var written := WriteThree(tokens, prefix, body, suffix);
      Put(written, total, s);
      ok := true;
    }

    /** Make sure a shard with room is open. */
    method Prepare(seqBytes: nat, ghost s: seq<int>)
      requires Valid() && (isOpen ==> model.current != []) && seqBytes == 4 * |s|
      modifies this
      ensures Valid() && isOpen
      ensures model == if old(model).current != []
          && ShardBytes(variableLength, old(model).current + [s]) > maxShardBytes
                       then State(old(model).Shards(), []) else old(model)
    {
      FlattenSnoc(model.current, s);
      if !isOpen {
        StartShard();
      }
      var projected := curTokenBytes + curOffsetBytes + seqBytes + (if variableLength then 8 else 0);
      if curSequences > 0 && projected > maxShardBytes {
        FinishShard();
        StartShard();
      }
    }

    /** The bookkeeping behind the writes. */
    method Put(written: seq<int>, total: nat, ghost s: seq<int>)
      requires Valid() && isOpen && written == tokens + s && total == |s|
          && Acceptable(variableLength, maxShardBytes, s)
      requires model.current != [] ==> ShardBytes(variableLength, model.current + [s]) <= maxShardBytes
      modifies this
      ensures Valid() && isOpen && model == State(old(model).done, old(model).current + [s])
    {
      ghost var next := State(model.done, model.current + [s]);
      PutKeeps(variableLength, maxShardBytes, model, s, next);
      PutFiles(written, total, s, next);
      PutTotals(total, s, next);
      Commit(next);
    }

    ghost method Commit(next: State)
      requires maxShardBytes > 0 && isOpen && next.done == model.done
      requires shards == AllShards(variableLength, model.done) && nextShardIndex == |model.done| + 1
      requires Sound(variableLength, maxShardBytes, next) && OpenFiles(next.current) && Totals(next.All())
      modifies this`model
      ensures Valid() && model == next
    {
      model := next;
    }

    method PutFiles(written: seq<int>, total: nat, ghost s: seq<int>, ghost next: State)
      requires OpenFiles(model.current) && written == tokens + s && total == |s| && next.current == model.current + [s]
      modifies this`tokens, this`offsets, this`curTokens, this`curTokenBytes, this`curSequences, this`curOffsetBytes
      ensures OpenFiles(next.current)
    {
      OffsetsSnoc(model.current, s);
      tokens := written;
      curTokenBytes := curTokenBytes + 4 * total;
      curTokens := curTokens + total;
      curSequences := curSequences + 1;
      if variableLength {
        offsets := offsets + [curTokens];
        curOffsetBytes := curOffsetBytes + 8;
      }
    }

    method PutTotals(total: nat, ghost s: seq<int>, ghost next: State)
      requires Totals(model.All()) && total == |s| && next.All() == model.All() + [s]
      modifies this`totalTokens, this`totalSequences
      ensures Totals(next.All())
    {
      FlattenSnoc(model.All(), s);
      totalTokens := totalTokens + total;
      totalSequences := totalSequences + 1;
    }
  }

  method WriteThree(tokens: seq<int>, prefix: seq<int>, body: seq<int>, suffix: seq<int>) returns (written: seq<int>)
    ensures written == tokens + (prefix + body + suffix)
  {
    written := tokens + prefix;
    written := written + body;
    written := written + suffix;
  }

  lemma {:induction false} PutKeeps(variable: bool, limit: nat, st: State, s: seq<int>, next: State)
    requires Sound(variable, limit, st) && Acceptable(variable, limit, s) && next == State(st.done, st.current + [s])
    requires st.current != [] ==> ShardBytes(variable, st.current + [s]) <= limit
    ensures Sound(variable, limit, next) && next.All() == st.All() + [s]
  {
    if st.current == [] {
      assert st.current + [s] == [s];
      OpensShard(variable, limit, st, s);
    } else {
      JoinsShard(variable, limit, st, s);
    }
  }

  /** Closing a shard keeps everything. */
  lemma {:induction false} CloseKeeps(variable: bool, limit: nat, st: State)
    requires Sound(variable, limit, st) && st.current != []
    ensures var closed := State(st.Shards(), []);
            Sound(variable, limit, closed) && closed.All() == st.All() && closed.Shards() == st.Shards()
  {
    ShardsAreAll(st);
    forall k | 0 <= k < |st.Shards()|
      ensures st.Shards()[k] != []
    {
      assert GoodShard(variable, limit, st.Shards()[k]);
    }
  }
}
