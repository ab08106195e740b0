/** The tokenized-corpus format: what the writer stores, what the reader checks and yields
    (`gd_tok_writer_*`, `TokenizedCorpus`). */
module TokCorpus {
  import opened Arith
  import opened Seqs
  import P = Packing

  /** One shard: its token file, its offsets file (empty in packed mode) and its manifest entry. */
  datatype TokShard = TokShard(tokens: seq<int>, offsets: seq<nat>, sequences: nat, tokenCount: nat, nbytes: nat)

  /** Token positions where the sequences start, and the end. */
  function Offsets(ss: seq<seq<int>>): (r: seq<nat>)
    ensures |r| == |ss| + 1
  {
    if ss == [] then [0] else Offsets(ss[..|ss| - 1]) + [|Flatten(ss)|]
  }

  /** Bytes of a shard with these sequences. */
  function ShardBytes(variable: bool, ss: seq<seq<int>>): nat {
    4 * |Flatten(ss)| + (if variable then 8 * (|ss| + 1) else 0)
  }

  /** The shard that holds exactly these sequences. */
  function ShardOf(variable: bool, ss: seq<seq<int>>): TokShard {
    TokShard(Flatten(ss), if variable then Offsets(ss) else [], |ss|, |Flatten(ss)|, ShardBytes(variable, ss))
  }

  lemma {:induction false} OffsetsSnoc(ss: seq<seq<int>>, s: seq<int>)
    ensures Offsets(ss + [s]) == Offsets(ss) + [|Flatten(ss)| + |s|]
    ensures Flatten(ss + [s]) == Flatten(ss) + s
  {
    FlattenSnoc(ss, s);
    assert (ss + [s])[..|ss|] == ss;
  }

  /** Offsets are prefix sums starting at 0 and ending at the number of tokens. */
  lemma {:induction false} OffsetsArePrefixSums(ss: seq<seq<int>>, i: nat)
    requires i <= |ss|
    ensures Offsets(ss)[i] == |Flatten(ss[..i])|
  {
    if ss != [] {
      var n := |ss| - 1;
      if i <= n {
        OffsetsArePrefixSums(ss[..n], i);
        assert ss[..n][..i] == ss[..i];
      } else {
        assert ss[..i] == ss;
      }
    }
  }

  /** The slice between two neighbouring offsets is the sequence. */
  lemma {:induction false} SliceIsSequence(ss: seq<seq<int>>, i: nat)
    requires i < |ss|
    ensures Offsets(ss)[i] <= Offsets(ss)[i + 1] <= |Flatten(ss)|
    ensures Flatten(ss)[Offsets(ss)[i]..Offsets(ss)[i + 1]] == ss[i]
  {
    OffsetsArePrefixSums(ss, i);
    OffsetsArePrefixSums(ss, i + 1);
    FlattenAt(ss, i);
  }

  // ---------- the reader ----------

  /** `mmap_packed_shard`: the size check. An empty file cannot be mapped. */
  predicate PackedOk(shard: TokShard, seqLen: nat) {
    shard.tokens != [] && |shard.tokens| == shard.sequences * seqLen
  }

  /** `mmap_jsonl_shard`: the checks on the offsets file. */
  predicate JsonlOk(shard: TokShard) {
    && shard.tokens != [] && |shard.offsets| == shard.sequences + 1
    && shard.offsets[0] == 0 && shard.offsets[|shard.offsets| - 1] == |shard.tokens|
  }

  /** `tokens[start:end]`, with the clamping of array slices. */
  function Clamped(tokens: seq<int>, lo: nat, hi: nat): seq<int> {
    var a, b := if lo < |tokens| then lo else |tokens|, if hi < |tokens| then hi else |tokens|;
    if a < b then tokens[a..b] else []
  }

  /** The sequences of one shard; `None` stands for the `ValueError` of a failed check. */
  function ReadJsonl(shard: TokShard): Option<seq<seq<int>>> {
    if !JsonlOk(shard) then None
    else Some(seq(shard.sequences, i requires 0 <= i < shard.sequences && |shard.offsets| == shard.sequences + 1 =>
                    Clamped(shard.tokens, shard.offsets[i], shard.offsets[i + 1])))
  }

  /** Row `i` of the reshaped array. */
  function RowOf(tokens: seq<int>, seqLen: nat, i: nat): seq<int> {
    Clamped(tokens, P.RowStart(seqLen, i), P.RowStart(seqLen, i) + seqLen)
  }

  function ReadPacked(shard: TokShard, seqLen: nat): Option<seq<seq<int>>> {
    if !PackedOk(shard, seqLen) then None
    else Some(seq(shard.sequences, i requires 0 <= i => RowOf(shard.tokens, seqLen, i)))
  }

  function ShardSequences(shards: seq<TokShard>, variable: bool, seqLen: nat): (r: seq<Option<seq<seq<int>>>>)
    ensures |r| == |shards|
    ensures forall k ::
        0 <= k < |r|
        ==> r[k] == if variable then ReadJsonl(shards[k]) else ReadPacked(shards[k], seqLen)
  {
    seq(|shards|, k requires 0 <= k < |shards| => if variable then ReadJsonl(shards[k])
      else ReadPacked(shards[k], seqLen))
  }

  /** `iter_sequences`. */
  function IterSequences(shards: seq<TokShard>, variable: bool, seqLen: nat): Option<seq<seq<int>>> {
    match Collect(ShardSequences(shards, variable, seqLen))
    case None => None
    case Some(lists) => Some(Flatten(lists))
  }

  ghost predicate NoEmpty(ss: seq<seq<int>>) {
    forall i :: 0 <= i < |ss| ==> ss[i] != []
  }

  ghost predicate AllOfLength(ss: seq<seq<int>>, n: nat) {
    forall i :: 0 <= i < |ss| ==> |ss[i]| == n
  }

  lemma {:induction false} SomeTokens(ss: seq<seq<int>>)
    requires ss != [] && NoEmpty(ss)
    ensures Flatten(ss) != []
  {
    assert ss[|ss| - 1] != [];
  }

  /** A JSONL shard passes every check and reads back its sequences. */
  lemma {:induction false} JsonlRoundTrip(ss: seq<seq<int>>)
    requires ss != [] && NoEmpty(ss)
    ensures ReadJsonl(ShardOf(true, ss)) == Some(ss)
  {
    var shard := ShardOf(true, ss);
    SomeTokens(ss);
    OffsetsArePrefixSums(ss, 0);
    OffsetsArePrefixSums(ss, |ss|);
    assert ss[..|ss|] == ss && ss[..0] == [];
    forall i | 0 <= i < |ss|
      ensures Clamped(shard.tokens, shard.offsets[i], shard.offsets[i + 1]) == ss[i]
    {
      SliceIsSequence(ss, i);
    }
    assert ReadJsonl(shard).value == ss;
  }

  lemma {:induction false} EqualLengths(ss: seq<seq<int>>, n: nat, i: nat)
    requires AllOfLength(ss, n) && i <= |ss|
    ensures |Flatten(ss[..i])| == P.RowStart(n, i)
  {
    if i > 0 {
      EqualLengths(ss, n, i - 1);
      assert ss[..i] == ss[..i - 1] + [ss[i - 1]];
      FlattenSnoc(ss[..i - 1], ss[i - 1]);
    }
  }

  /** A packed shard passes the size check and reads back its rows. */
  lemma {:induction false} PackedRoundTrip(ss: seq<seq<int>>, n: nat)
    requires ss != [] && n > 0 && AllOfLength(ss, n)
    ensures ReadPacked(ShardOf(false, ss), n) == Some(ss)
  {
    var shard := ShardOf(false, ss);
    SomeTokens(ss);
    EqualLengths(ss, n, |ss|);
    P.RowStartIs(n, |ss|);
    assert ss[..|ss|] == ss;
    forall i | 0 <= i < |ss|
      ensures RowOf(shard.tokens, n, i) == ss[i]
    {
      EqualLengths(ss, n, i);
      EqualLengths(ss, n, i + 1);
      FlattenAt(ss, i);
    }
    assert ReadPacked(shard, n).value == ss;
  }

  // ---------- what is accepted ----------

  ghost predicate NonDecreasing(offsets: seq<nat>) {
    forall i, j :: 0 <= i <= j < |offsets| ==> offsets[i] <= offsets[j]
  }

  lemma {:induction false} OneMoreSlice(tokens: seq<int>, ss: seq<seq<int>>, n: nat, a: nat, b: nat)
    requires 0 < n <= |ss| && a <= b <= |tokens| && ss[n - 1] == tokens[a..b]
    requires Flatten(ss[..n - 1]) == tokens[..a]
    ensures Flatten(ss[..n]) == tokens[..b]
  {
    assert ss[..n] == ss[..n - 1] + [ss[n - 1]];
    FlattenSnoc(ss[..n - 1], ss[n - 1]);
    assert tokens[..a] + tokens[a..b] == tokens[..b];
  }

  lemma {:induction false} SliceInside(shard: TokShard, i: nat)
    requires ReadJsonl(shard).Some? && NonDecreasing(shard.offsets) && i < shard.sequences
    ensures |ReadJsonl(shard).value| == shard.sequences && shard.offsets[i] <= shard.offsets[i + 1] <= |shard.tokens|
    ensures ReadJsonl(shard).value[i] == shard.tokens[shard.offsets[i]..shard.offsets[i + 1]]
  {
    assert shard.offsets[i + 1] <= shard.offsets[|shard.offsets| - 1];
  }

  lemma {:induction false} SlicesAreFront(shard: TokShard, n: nat)
    requires ReadJsonl(shard).Some? && NonDecreasing(shard.offsets) && n <= shard.sequences
    ensures |ReadJsonl(shard).value| == shard.sequences && shard.offsets[n] <= |shard.tokens|
    ensures Flatten(ReadJsonl(shard).value[..n]) == shard.tokens[..shard.offsets[n]]
    decreases n
  {
    if n > 0 {
      SlicesAreFront(shard, n - 1);
      SliceInside(shard, n - 1);
      OneMoreSlice(shard.tokens, ReadJsonl(shard).value, n, shard.offsets[n - 1], shard.offsets[n]);
    }
  }

  /** Whoever wrote it: a JSONL shard that passes the checks, with offsets that never decrease, yields all its tokens
      in order. */
  lemma {:induction false} AcceptedIsWhole(shard: TokShard)
    requires ReadJsonl(shard).Some? && NonDecreasing(shard.offsets)
    ensures Flatten(ReadJsonl(shard).value) == shard.tokens
  {
    SlicesAreFront(shard, shard.sequences);
    WholeList(ReadJsonl(shard).value);
    WholeList(shard.tokens);
  }

  lemma {:induction false} WholeList<T>(s: seq<T>)
    ensures s[..|s|] == s
  {
  }

  lemma {:induction false} RowsInside(shard: TokShard, seqLen: nat, n: nat)
    requires PackedOk(shard, seqLen) && n <= shard.sequences
    ensures P.RowStart(seqLen, n) <= |shard.tokens|
    ensures n == shard.sequences ==> P.RowStart(seqLen, n) == |shard.tokens|
  {
    P.RowStartIs(seqLen, n);
    MulLe(n, shard.sequences, seqLen);
  }

  lemma {:induction false} RowsAreFront(shard: TokShard, seqLen: nat, n: nat)
    requires ReadPacked(shard, seqLen).Some? && n <= shard.sequences
    ensures |ReadPacked(shard, seqLen).value| == shard.sequences && P.RowStart(seqLen, n) <= |shard.tokens|
    ensures Flatten(ReadPacked(shard, seqLen).value[..n]) == shard.tokens[..P.RowStart(seqLen, n)]
    decreases n
  {
    RowsInside(shard, seqLen, n);
    if n > 0 {
      RowsAreFront(shard, seqLen, n - 1);
      PackedRowInside(shard, seqLen, n - 1);
      OneMoreSlice(shard.tokens, ReadPacked(shard, seqLen).value, n, P.RowStart(seqLen, n - 1), P.RowStart(seqLen, n));
    }
  }

  lemma {:induction false} PackedRowInside(shard: TokShard, seqLen: nat, i: nat)
    requires ReadPacked(shard, seqLen).Some? && i < shard.sequences
    ensures P.RowStart(seqLen, i + 1) <= |shard.tokens| && |ReadPacked(shard, seqLen).value| == shard.sequences
    ensures ReadPacked(shard, seqLen).value[i] == shard.tokens[P.RowStart(seqLen, i)..P.RowStart(seqLen, i + 1)]
  {
    RowsInside(shard, seqLen, i + 1);
    assert ReadPacked(shard, seqLen).value[i] == RowOf(shard.tokens, seqLen, i);
  }

  /** And a packed shard that passes its check yields all its tokens, in rows of the given width. */
  lemma {:induction false} AcceptedRows(shard: TokShard, seqLen: nat)
    requires ReadPacked(shard, seqLen).Some?
    ensures Flatten(ReadPacked(shard, seqLen).value) == shard.tokens
    ensures AllOfLength(ReadPacked(shard, seqLen).value, seqLen)
  {
    RowsAreFront(shard, seqLen, shard.sequences);
    RowsInside(shard, seqLen, shard.sequences);
    WholeList(ReadPacked(shard, seqLen).value);
    WholeList(shard.tokens);
    forall i | 0 <= i < shard.sequences
      ensures |ReadPacked(shard, seqLen).value[i]| == seqLen
    {
      PackedRowInside(shard, seqLen, i);
    }
  }

  /** The packers' view of a JSONL shard: a valid shard whose documents are the sequences. */
  lemma {:induction false} SequencesAreDocuments(ss: seq<seq<int>>)
    ensures var shard := P.Shard(Flatten(ss), Offsets(ss));
            shard.Valid() && shard.Documents(|ss|) == ss
  {
    var shard := P.Shard(Flatten(ss), Offsets(ss));
    OffsetsArePrefixSums(ss, 0);
    OffsetsArePrefixSums(ss, |ss|);
    assert ss[..|ss|] == ss && ss[..0] == [];
    forall i | 0 <= i < |ss|
      ensures shard.DocumentOk(i)
    {
      SliceIsSequence(ss, i);
    }
    DocumentsUpTo(ss, |ss|);
  }

  lemma {:induction false} DocumentsUpTo(ss: seq<seq<int>>, n: nat)
    requires n <= |ss| && P.Shard(Flatten(ss), Offsets(ss)).Valid()
    ensures P.Shard(Flatten(ss), Offsets(ss)).Documents(n) == ss[..n]
  {
    if n > 0 {
      DocumentsUpTo(ss, n - 1);
      SliceIsSequence(ss, n - 1);
    }
  }
}
