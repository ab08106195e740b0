/** The bytes of token and offset files: `i32` and `u64` arrays on disk, mapped back by the reader
    (`TOKEN_DTYPE`, `OFFSET_DTYPE`). */
module TokFiles {
  import opened Arith
  import opened Seqs
  import opened Bytes
  import opened TokCorpus
  import opened TokWriter
  import opened TokSplit
  import opened TokRuns

  const TOKEN_BYTES: nat := 4
  const OFFSET_BYTES: nat := 8

  // ---------- arrays of fixed width ----------

  /** `np.memmap`: `None` where the size is no multiple of the element size. */
  function Unpack(s: Data, width: nat): Option<seq<nat>>
    requires width > 0
    decreases |s|
  {
    if s == [] then Some([])
    else if |s| < width then None
    else
      match Unpack(s[..|s| - width], width)
      case None => None
      case Some(front) => Some(front + [FromLE(s[|s| - width..])])
  }

  ghost predicate AllBelow(values: seq<nat>, bound: nat) {
    forall i :: 0 <= i < |values| ==> values[i] < bound
  }

  lemma {:induction false} UnpackSnoc(s: Data, chunk: Data, width: nat, front: seq<nat>)
    requires |chunk| == width > 0 && Unpack(s, width) == Some(front)
    ensures Unpack(s + chunk, width) == Some(front + [FromLE(chunk)])
  {
    var all := s + chunk;
    assert all[..|all| - width] == s && all[|all| - width..] == chunk;
  }

  /** Packed numbers that fit their width unpack to themselves. */
  lemma {:induction false} UnpackPack(values: seq<nat>, width: nat)
    requires width > 0 && AllBelow(values, Pow256(width))
    ensures Unpack(Pack(values, width), width) == Some(values)
  {
    if values != [] {
      var init, last := values[..|values| - 1], values[|values| - 1];
      UnpackPack(init, width);
      LERoundTrip(last, width);
      UnpackSnoc(Pack(init, width), LE(last, width), width, init);
      assert init + [last] == values;
    }
  }

  /** Every file of whole elements is the packing of what it unpacks to. */
  lemma {:induction false} PackUnpack(s: Data, width: nat)
    requires width > 0 && Unpack(s, width).Some?
    ensures Pack(Unpack(s, width).value, width) == s && AllBelow(Unpack(s, width).value, Pow256(width))
    decreases |s|
  {
    if s != [] {
      var front, last := s[..|s| - width], s[|s| - width..];
      PackUnpack(front, width);
      FromLERoundTrip(last);
      PackSnoc(Unpack(front, width).value, FromLE(last), width);
      assert s == front + last;
    }
  }

  lemma {:induction false} PackSnoc(values: seq<nat>, n: nat, width: nat)
    requires AllBelow(values, Pow256(width)) && n < Pow256(width)
    ensures Pack(values + [n], width) == Pack(values, width) + LE(n, width) && AllBelow(values + [n], Pow256(width))
  {
    assert (values + [n])[..|values|] == values;
  }

  // ---------- signed tokens ----------

  ghost predicate IsToken(t: int) { -0x8000_0000 <= t < 0x8000_0000 }

  ghost predicate AllTokens(tokens: seq<int>) {
    forall i :: 0 <= i < |tokens| ==> IsToken(tokens[i])
  }

  /** The `u32` with the same bits. */
  function Bits(t: int): nat { t % 0x1_0000_0000 }

  function Signed(u: nat): int { if u >= 0x8000_0000 then u - 0x1_0000_0000 else u }

  function AllBits(tokens: seq<int>): (r: seq<nat>)
    ensures |r| == |tokens| && forall i :: 0 <= i < |r| ==> r[i] == Bits(tokens[i])
  {
    seq(|tokens|, i requires 0 <= i < |tokens| => Bits(tokens[i]))
  }

  function AllSigned(values: seq<nat>): (r: seq<int>)
    ensures |r| == |values| && forall i :: 0 <= i < |r| ==> r[i] == Signed(values[i])
  {
    seq(|values|, i requires 0 <= i < |values| => Signed(values[i]))
  }

  lemma {:induction false} SignedBits(tokens: seq<int>)
    requires AllTokens(tokens)
    ensures AllSigned(AllBits(tokens)) == tokens && AllBelow(AllBits(tokens), 0x1_0000_0000)
  {
    forall i | 0 <= i < |tokens|
      ensures Signed(Bits(tokens[i])) == tokens[i] && Bits(tokens[i]) < 0x1_0000_0000
    {
      assert IsToken(tokens[i]);
    }
  }

  // ---------- shards on disk ----------

  /** A shard as its two files, with its manifest entry. */
  datatype FileShard = FileShard(tokensFile: Data, offsetsFile: Data, sequences: nat, tokenCount: nat, nbytes: nat)

  function OnDisk(shard: TokShard): FileShard {
    FileShard(Pack(AllBits(shard.tokens), TOKEN_BYTES), Pack(shard.offsets, OFFSET_BYTES),
              shard.sequences, shard.tokenCount, shard.nbytes)
  }

  /** The shard as the reader maps it. */
  function MapShard(f: FileShard): Option<TokShard> {
    match (Unpack(f.tokensFile, TOKEN_BYTES), Unpack(f.offsetsFile, OFFSET_BYTES))
    case (Some(values), Some(offsets)) => Some(TokShard(AllSigned(values), offsets, f.sequences, f.tokenCount,
      f.nbytes))
    case _ => None
  }

  lemma {:induction false} MapOnDisk(shard: TokShard)
    requires AllTokens(shard.tokens) && AllBelow(shard.offsets, WORD)
    ensures MapShard(OnDisk(shard)) == Some(shard)
  {
    Widths();
    SignedBits(shard.tokens);
    UnpackPack(AllBits(shard.tokens), TOKEN_BYTES);
    UnpackPack(shard.offsets, OFFSET_BYTES);
  }

  ghost predicate TokensOfAll(ss: seq<seq<int>>) {
    AllTokens(Flatten(ss)) && |Flatten(ss)| < WORD
  }

  /** The files of a written shard map back to it, and the manifest counts their bytes exactly. */
  lemma {:induction false} ShardFilesExact(variable: bool, ss: seq<seq<int>>)
    requires TokensOfAll(ss)
    ensures var f := OnDisk(ShardOf(variable, ss));
            MapShard(f) == Some(ShardOf(variable, ss)) && f.nbytes == |f.tokensFile| + |f.offsetsFile|
  {
    var shard := ShardOf(variable, ss);
    OffsetsBelow(variable, ss);
    MapOnDisk(shard);
    PackLength(AllBits(shard.tokens), TOKEN_BYTES);
    PackLength(shard.offsets, OFFSET_BYTES);
  }

  lemma {:induction false} FlattenShorter(ss: seq<seq<int>>, i: nat)
    requires i <= |ss|
    ensures |Flatten(ss[..i])| <= |Flatten(ss)|
  {
    assert ss == ss[..i] + ss[i..];
    FlattenAppend(ss[..i], ss[i..]);
  }

  function MapShards(files: seq<FileShard>): (r: seq<Option<TokShard>>)
    ensures |r| == |files| && forall k :: 0 <= k < |r| ==> r[k] == MapShard(files[k])
  {
    seq(|files|, k requires 0 <= k < |files| => MapShard(files[k]))
  }

  function AllOnDisk(shards: seq<TokShard>): (r: seq<FileShard>)
    ensures |r| == |shards| && forall k :: 0 <= k < |r| ==> r[k] == OnDisk(shards[k])
  {
    seq(|shards|, k requires 0 <= k < |shards| => OnDisk(shards[k]))
  }

  /** `iter_sequences` over the files. */
  function IterFiles(files: seq<FileShard>, variable: bool, seqLen: nat): Option<seq<seq<int>>> {
    match Collect(MapShards(files))
    case None => None
    case Some(shards) => IterSequences(shards, variable, seqLen)
  }

  /** Reading the files of a corpus is reading its shards. */
  lemma {:induction false} FilesRead(shards: seq<TokShard>, variable: bool, seqLen: nat)
    requires forall k :: 0 <= k < |shards| ==> AllTokens(shards[k].tokens) && AllBelow(shards[k].offsets, WORD)
    ensures IterFiles(AllOnDisk(shards), variable, seqLen) == IterSequences(shards, variable, seqLen)
  {
    forall k | 0 <= k < |shards|
      ensures MapShards(AllOnDisk(shards))[k] == Some(shards[k])
    {
      MapOnDisk(shards[k]);
    }
    CollectIs(MapShards(AllOnDisk(shards)), shards);
  }

  /** The tokens of one sequence list are those of its sequences. */
  lemma {:induction false} TokensOfParts(ss: seq<seq<int>>)
    requires forall i :: 0 <= i < |ss| ==> AllTokens(ss[i])
    ensures AllTokens(Flatten(ss))
  {
    if ss != [] {
      TokensOfParts(ss[..|ss| - 1]);
    }
  }

  lemma {:induction false} PartsAreTokens(done: seq<seq<seq<int>>>, rs: seq<seq<int>>, k: nat)
    requires Flatten(done) == rs && k < |done| && forall i :: 0 <= i < |rs| ==> AllTokens(rs[i])
    ensures AllTokens(Flatten(done[k]))
  {
    FlattenAt(done, k);
    forall i | 0 <= i < |done[k]|
      ensures AllTokens(done[k][i])
    {
      assert done[k][i] == rs[|Flatten(done[..k])| + i];
    }
    TokensOfParts(done[k]);
  }

  /** From sequences to bytes and back: the files of a run of the writer yield the sequences in order. */
  lemma {:induction false} FilesRoundTrip(variable: bool, limit: nat, seqLen: nat, rs: seq<seq<int>>)
    requires TokSplit.AllAcceptable(variable, limit, rs) && limit < WORD
    requires variable || (seqLen > 0 && AllOfLength(rs, seqLen))
    requires forall i :: 0 <= i < |rs| ==> AllTokens(rs[i])
    ensures var shards := AllShards(variable, Run(variable, limit, EMPTY, rs).Shards());
            IterFiles(AllOnDisk(shards), variable, seqLen) == Some(rs)
  {
    var done := Run(variable, limit, EMPTY, rs).Shards();
    RunRoundTrip(variable, limit, seqLen, rs);
    RunFills(variable, limit, rs);
    ShardsAreAll(Run(variable, limit, EMPTY, rs));
    forall k | 0 <= k < |done|
      ensures AllTokens(ShardOf(variable, done[k]).tokens) && AllBelow(ShardOf(variable, done[k]).offsets, WORD)
    {
      PartsAreTokens(done, rs, k);
      assert GoodShard(variable, limit, done[k]);
      OffsetsBelow(variable, done[k]);
    }
    FilesRead(AllShards(variable, done), variable, seqLen);
  }

  lemma {:induction false} OffsetsBelow(variable: bool, ss: seq<seq<int>>)
    requires |Flatten(ss)| < WORD
    ensures AllBelow(ShardOf(variable, ss).offsets, WORD)
  {
    var offsets := ShardOf(variable, ss).offsets;
    forall i | 0 <= i < |offsets|
      ensures offsets[i] < WORD
    {
      OffsetsArePrefixSums(ss, i);
      FlattenShorter(ss, i);
    }
  }
}
