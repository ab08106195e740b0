/** Cutting a stream of tokenized documents into overlapping fixed-width rows
    (`iter_packed_samples`, `iter_packed_samples_range`). */
module Packing {
  import opened Arith
  import opened Seqs
  import opened Segments

  /** One packed row: `c + 1` tokens and the document run lengths of the first `c`. */
  datatype Sample = Sample(tokens: seq<int>, segmentLengths: seq<int>)

  /** A row before its run lengths are computed: `c + 1` tokens with their document numbers. */
  datatype Window = Window(tokens: seq<int>, docIds: seq<int>) {
    /** The labelled row; the run lengths of an empty vector are never asked for. */
    function Label(): Sample {
      Sample(tokens, if |docIds| < 2 then [] else SegmentLengths(docIds[..|docIds| - 1]))
    }
  }

  function LabelAll(ws: seq<Window>): (rows: seq<Sample>)
    ensures |rows| == |ws|
  {
    if ws == [] then [] else LabelAll(ws[..|ws| - 1]) + [ws[|ws| - 1].Label()]
  }

  /** One tokenized shard: the token file and the offsets file, one offset per document plus one. */
  datatype Shard = Shard(tokens: seq<int>, offsets: seq<nat>) {
    /** Document `i` is a well-formed slice of the token file. */
    ghost predicate DocumentOk(i: nat)
      requires i + 1 < |offsets|
    {
      offsets[i] <= offsets[i + 1] <= |tokens|
    }

    ghost predicate Valid() {
      && |offsets| > 0
      && offsets[0] == 0
      && offsets[|offsets| - 1] == |tokens|
      && (forall i: nat :: i + 1 < |offsets| ==> DocumentOk(i))
    }

    function Document(i: nat): seq<int>
      requires i + 1 < |offsets| && DocumentOk(i)
    {
      tokens[offsets[i]..offsets[i + 1]]
    }

    /** The documents `iter_sequences` yields for this shard. */
    function Documents(n: nat): (docs: seq<seq<int>>)
      requires Valid() && n < |offsets|
      ensures |docs| == n
    {
      if n == 0 then []
      else
        assert DocumentOk(n - 1);
        Documents(n - 1) + [Document(n - 1)]
    }
  }

  /** Every shard passes the checks of `mmap_jsonl_shard` and its offsets never decrease. */
  ghost predicate ValidShards(shards: seq<Shard>) {
    forall s <- shards :: s.Valid()
  }

  function AllDocuments(shards: seq<Shard>): seq<seq<int>>
    requires ValidShards(shards)
  {
    if shards == [] then []
    else
      var last := shards[|shards| - 1];
      assert last.Valid();
      AllDocuments(shards[..|shards| - 1]) + last.Documents(|last.offsets| - 1)
  }

  // ---------- the row specification ----------

  /** The document number of every token, counting empty documents. */
  function Owners(docs: seq<seq<int>>): (r: seq<int>)
    ensures |r| == |Flatten(docs)|
    ensures forall i :: 0 <= i < |r| ==> 0 <= r[i] < |docs|
  {
    if docs == [] then []
    else Owners(docs[..|docs| - 1]) + Repeat(|docs| - 1, |docs[|docs| - 1]|)
  }

  function CountNonEmpty(docs: seq<seq<int>>): (n: nat)
    ensures n <= |docs|
  {
    if docs == [] then 0
    else CountNonEmpty(docs[..|docs| - 1]) + (if docs[|docs| - 1] == [] then 0 else 1)
  }

  /** The document number of every token, skipping empty documents. */
  function DenseOwners(docs: seq<seq<int>>): (r: seq<int>)
    ensures |r| == |Flatten(docs)|
    ensures forall i :: 0 <= i < |r| ==> 0 <= r[i] < CountNonEmpty(docs)
  {
    if docs == [] then []
    else
      var rest, last := docs[..|docs| - 1], docs[|docs| - 1];
      DenseOwners(rest) + Repeat(CountNonEmpty(rest), |last|)
  }

  /** Where row `k` starts: `c` tokens after the row before it. */
  function RowStart(c: nat, k: nat): nat {
    if k == 0 then 0 else RowStart(c, k - 1) + c
  }

  /** `base` is where row `k` starts. */
  ghost predicate StartsRow(base: nat, c: nat, k: nat) {
    base == RowStart(c, k)
  }

  /** How many windows of width `c + 1` at stride `c` fit: slide one stride at a time. */
  function Windows(total: nat, c: nat): nat
    requires c > 0
  {
    if total < c + 1 then 0 else 1 + Windows(total - c, c)
  }

  lemma {:induction false} RowStartIs(c: nat, k: nat)
    ensures RowStart(c, k) == k * c
  {
    if k > 0 {
      RowStartIs(c, k - 1);
      assert (k - 1) * c + c == k * c;
    }
  }

  /** Window `k` is among them exactly when its last token exists. */
  lemma {:induction false} WindowsExact(total: nat, c: nat, k: nat)
    requires c > 0
    ensures k < Windows(total, c) <==> RowStart(c, k) + c + 1 <= total
    decreases k
  {
    if k > 0 && total >= c + 1 {
      WindowsExact(total - c, c, k - 1);
    } else if k > 0 {
      RowStartIs(c, k);
    }
  }

  /** `packed_sample_capacity`. */
  function Capacity(total: nat, c: nat): nat
    requires c > 0
  {
    if total < c + 1 then 0 else (total - (c + 1)) / c + 1
  }

  /** The closed formula counts the windows. */
  lemma {:induction false} CapacityCountsWindows(total: nat, c: nat)
    requires c > 0
    ensures Capacity(total, c) == Windows(total, c)
  {
    if total >= c + 1 {
      CapacityCountsWindows(total - c, c);
      if total - c >= c + 1 {
        var x := total - c - (c + 1);
        DivMod(x, c);
        assert (x / c + 1) * c == x / c * c + c;
        DivUnique(x + c, c, x / c + 1, x % c);
      } else {
        DivUnique(total - (c + 1), c, 0, total - (c + 1));
      }
    }
  }

  /** Window `k`: width `c + 1` at stride `c`. */
  function WindowAt(stream: seq<int>, owners: seq<int>, c: nat, k: nat): Window
    requires c > 0 && |owners| == |stream| && k < Windows(|stream|, c)
  {
    WindowsExact(|stream|, c, k);
    var base := RowStart(c, k);
    Window(stream[base..base + c + 1], owners[base..base + c + 1])
  }

  /** Windows `lo`, ..., `lo + n - 1`. */
  function Cut(stream: seq<int>, owners: seq<int>, c: nat, lo: nat, n: nat): (ws: seq<Window>)
    requires c > 0 && |owners| == |stream|
    requires n > 0 ==> lo + n <= Windows(|stream|, c)
    ensures |ws| == n
    decreases n
  {
    if n == 0 then []
    else Cut(stream, owners, c, lo, n - 1) + [WindowAt(stream, owners, c, lo + n - 1)]
  }

  /** Rows `lo`, ..., `lo + n - 1` of a document list: the common specification of both packers. */
  function Rows(docs: seq<seq<int>>, c: nat, lo: nat, n: nat): (rows: seq<Sample>)
    requires c > 0 && (n > 0 ==> lo + n <= Windows(|Flatten(docs)|, c))
    ensures |rows| == n
  {
    LabelAll(Cut(Flatten(docs), Owners(docs), c, lo, n))
  }

  /** Row `i` of a range is the labelled window at its place. */
  lemma {:induction false} RowAt(docs: seq<seq<int>>, c: nat, lo: nat, n: nat, i: nat)
    requires c > 0 && i < n && lo + n <= Windows(|Flatten(docs)|, c)
    ensures Rows(docs, c, lo, n)[i] == WindowAt(Flatten(docs), Owners(docs), c, lo + i).Label()
  {
    CutAt(Flatten(docs), Owners(docs), c, lo, n, i);
    LabelAt(Cut(Flatten(docs), Owners(docs), c, lo, n), i);
  }

  lemma {:induction false} CutAt(stream: seq<int>, owners: seq<int>, c: nat, lo: nat, n: nat, i: nat)
    requires c > 0 && |owners| == |stream| && i < n && lo + n <= Windows(|stream|, c)
    ensures Cut(stream, owners, c, lo, n)[i] == WindowAt(stream, owners, c, lo + i)
  {
    if i < n - 1 {
      CutAt(stream, owners, c, lo, n - 1, i);
    }
  }

  lemma {:induction false} LabelAt(ws: seq<Window>, i: nat)
    requires i < |ws|
    ensures LabelAll(ws)[i] == ws[i].Label()
  {
    if i < |ws| - 1 {
      LabelAt(ws[..|ws| - 1], i);
    }
  }

  /** `w` is window `k`, position by position. */
  ghost predicate IsWindow(w: Window, stream: seq<int>, owners: seq<int>, c: nat, k: nat) {
    && |owners| == |stream|
    && |w.tokens| == |w.docIds| == c + 1
    && RowStart(c, k) + c + 1 <= |stream|
    && forall i {:trigger w.tokens[i]} {:trigger w.docIds[i]} :: 0 <= i <= c ==>
         w.tokens[i] == stream[RowStart(c, k) + i] && w.docIds[i] == owners[RowStart(c, k) + i]
  }

  /** `ws` are the windows `lo`, `lo + 1`, ... of the stream. */
  ghost predicate AreWindows(ws: seq<Window>, stream: seq<int>, owners: seq<int>, c: nat, lo: nat) {
    && |owners| == |stream|
    && forall j :: 0 <= j < |ws| ==> IsWindow(ws[j], stream, owners, c, lo + j)
  }

  lemma {:induction false} AreWindowsIsCut(ws: seq<Window>, stream: seq<int>, owners: seq<int>, c: nat, lo: nat)
    requires c > 0 && AreWindows(ws, stream, owners, c, lo)
    ensures |ws| > 0 ==> lo + |ws| <= Windows(|stream|, c)
    ensures ws == Cut(stream, owners, c, lo, |ws|)
  {
    if ws != [] {
      var n := |ws| - 1;
      AreWindowsIsCut(ws[..n], stream, owners, c, lo);
      assert IsWindow(ws[n], stream, owners, c, lo + n);
      WindowsExact(|stream|, c, lo + n);
      var base := RowStart(c, lo + n);
      assert ws[n].tokens == stream[base..base + c + 1];
      assert ws[n].docIds == owners[base..base + c + 1];
    }
  }

  lemma {:induction false} LabelAppend(a: seq<Window>, b: seq<Window>)
    ensures LabelAll(a + b) == LabelAll(a) + LabelAll(b)
  {
    if b == [] {
      assert a + b == a;
    } else {
      assert (a + b)[..|a + b| - 1] == a + b[..|b| - 1];
      LabelAppend(a, b[..|b| - 1]);
    }
  }

  lemma {:induction false} CutSplit(stream: seq<int>, owners: seq<int>, c: nat, lo: nat, m: nat, n: nat)
    requires c > 0 && |owners| == |stream|
    requires m + n > 0 ==> lo + m + n <= Windows(|stream|, c)
    ensures Cut(stream, owners, c, lo, m + n) == Cut(stream, owners, c, lo, m) + Cut(stream, owners, c, lo + m, n)
  {
    if n > 0 {
      CutSplit(stream, owners, c, lo, m, n - 1);
      assert lo + (m + n) - 1 == lo + m + n - 1;
    }
  }

  /** A range of rows splits anywhere. */
  lemma {:induction false} RowsSplit(docs: seq<seq<int>>, c: nat, lo: nat, m: nat, n: nat)
    requires c > 0 && (m + n > 0 ==> lo + m + n <= Windows(|Flatten(docs)|, c))
    ensures Rows(docs, c, lo, m + n) == Rows(docs, c, lo, m) + Rows(docs, c, lo + m, n)
  {
    var stream, ids := Flatten(docs), Owners(docs);
    CutSplit(stream, ids, c, lo, m, n);
    LabelAppend(Cut(stream, ids, c, lo, m), Cut(stream, ids, c, lo + m, n));
  }

  lemma {:induction false} WindowDocIds(stream: seq<int>, owners: seq<int>, c: nat, k: nat)
    requires c > 0 && |owners| == |stream| && k < Windows(|stream|, c)
    ensures var base, w := RowStart(c, k), WindowAt(stream, owners, c, k);
            && base + c + 1 <= |stream|
            && w.tokens == stream[base..base + c + 1]
            && |w.docIds| == c + 1
            && w.docIds[..|w.docIds| - 1] == owners[base..base + c]
  {
    WindowsExact(|stream|, c, k);
    SliceFront(owners, RowStart(c, k), RowStart(c, k) + c + 1, c);
  }

  /** Windows with the same tokens whose numberings change at the same places. */
  ghost predicate Alike(v: Window, w: Window) {
    && v.tokens == w.tokens
    && |v.docIds| == |w.docIds| >= 2
    && SamePattern(v.docIds[..|v.docIds| - 1], w.docIds[..|w.docIds| - 1])
  }

  lemma {:induction false} WindowsAlike(stream: seq<int>, a: seq<int>, b: seq<int>, c: nat, k: nat)
    requires c > 0 && |a| == |stream| && SamePattern(a, b) && k < Windows(|stream|, c)
    ensures Alike(WindowAt(stream, a, c, k), WindowAt(stream, b, c, k))
  {
    WindowDocIds(stream, a, c, k);
    WindowDocIds(stream, b, c, k);
    SlicePattern(a, b, RowStart(c, k), RowStart(c, k) + c);
  }

  lemma {:induction false} AlikeSameLabel(v: Window, w: Window)
    requires Alike(v, w)
    ensures v.Label() == w.Label()
  {
    SegmentLengthsSamePattern(v.docIds[..|v.docIds| - 1], w.docIds[..|w.docIds| - 1]);
  }

  lemma {:induction false} AlikeSameLabels(vs: seq<Window>, ws: seq<Window>)
    requires |vs| == |ws| && forall j :: 0 <= j < |vs| ==> Alike(vs[j], ws[j])
    ensures LabelAll(vs) == LabelAll(ws)
  {
    if vs != [] {
      AlikeSameLabels(vs[..|vs| - 1], ws[..|ws| - 1]);
      AlikeSameLabel(vs[|vs| - 1], ws[|ws| - 1]);
    }
  }

  /** Labels depend on the numbering only through where it changes. */
  lemma {:induction false} CutAlike(stream: seq<int>, a: seq<int>, b: seq<int>, c: nat, lo: nat, n: nat)
    requires c > 0 && |a| == |stream| && SamePattern(a, b)
    requires n > 0 ==> lo + n <= Windows(|stream|, c)
    ensures forall j :: 0 <= j < n ==> Alike(Cut(stream, a, c, lo, n)[j], Cut(stream, b, c, lo, n)[j])
  {
    if n > 0 {
      CutAlike(stream, a, b, c, lo, n - 1);
      WindowsAlike(stream, a, b, c, lo + n - 1);
      var v, w := Cut(stream, a, c, lo, n), Cut(stream, b, c, lo, n);
      var v', w' := Cut(stream, a, c, lo, n - 1), Cut(stream, b, c, lo, n - 1);
      assert v == v' + [WindowAt(stream, a, c, lo + n - 1)];
      assert w == w' + [WindowAt(stream, b, c, lo + n - 1)];
      forall j | 0 <= j < n
        ensures Alike(v[j], w[j])
      {
        if j < n - 1 {
          assert Alike(v'[j], w'[j]);
        }
      }
    }
  }

  lemma {:induction false} SlicePattern(a: seq<int>, b: seq<int>, i: nat, j: nat)
    requires SamePattern(a, b) && i <= j <= |a|
    ensures SamePattern(a[i..j], b[i..j])
  {
    forall p | 0 < p < j - i
      ensures ChangesAt(a[i..j], p) <==> ChangesAt(b[i..j], p)
    {
      assert ChangesAt(a, i + p) <==> ChangesAt(b, i + p);
    }
  }

  /** Counting or skipping empty documents gives different numbers but the same boundaries. */
  lemma {:induction false} NumberingsSamePattern(docs: seq<seq<int>>)
    ensures SamePattern(Owners(docs), DenseOwners(docs))
  {
    if docs != [] {
      var rest, n := docs[..|docs| - 1], |docs[|docs| - 1]|;
      NumberingsSamePattern(rest);
      var a, b := Owners(docs), DenseOwners(docs);
      forall p | 0 < p < |a|
        ensures ChangesAt(a, p) <==> ChangesAt(b, p)
      {
        if p < |Owners(rest)| {
          assert ChangesAt(Owners(rest), p) <==> ChangesAt(DenseOwners(rest), p);
        }
      }
    }
  }

  lemma {:induction false} OwnersAt(docs: seq<seq<int>>, i: nat)
    requires i < |docs|
    ensures var lo, hi := |Flatten(docs[..i])|, |Flatten(docs[..i + 1])|;
            && lo + |docs[i]| == hi <= |Flatten(docs)|
            && Owners(docs)[lo..hi] == Repeat(i, |docs[i]|)
            && DenseOwners(docs)[lo..hi] == Repeat(CountNonEmpty(docs[..i]), |docs[i]|)
  {
    FlattenAt(docs, i);
    OwnersSlice(docs, i);
    DenseSlice(docs, i);
  }

  lemma {:induction false} OwnersSlice(docs: seq<seq<int>>, i: nat)
    requires i < |docs|
    ensures |Flatten(docs[..i])| + |docs[i]| == |Flatten(docs[..i + 1])| <= |Flatten(docs)|
    ensures Owners(docs)[|Flatten(docs[..i])|..|Flatten(docs[..i + 1])|] == Repeat(i, |docs[i]|)
  {
    FlattenAt(docs, i);
    if i == |docs| - 1 {
      assert docs[..i + 1] == docs;
    } else {
      var rest := docs[..|docs| - 1];
      OwnersSlice(rest, i);
      assert rest[..i] == docs[..i] && rest[..i + 1] == docs[..i + 1];
    }
  }

  lemma {:induction false} DenseSlice(docs: seq<seq<int>>, i: nat)
    requires i < |docs|
    ensures |Flatten(docs[..i])| + |docs[i]| == |Flatten(docs[..i + 1])| <= |Flatten(docs)|
    ensures DenseOwners(docs)[|Flatten(docs[..i])|..|Flatten(docs[..i + 1])|]
            == Repeat(CountNonEmpty(docs[..i]), |docs[i]|)
  {
    FlattenAt(docs, i);
    if i == |docs| - 1 {
      assert docs[..i + 1] == docs;
    } else {
      var rest := docs[..|docs| - 1];
      DenseSlice(rest, i);
      assert rest[..i] == docs[..i] && rest[..i + 1] == docs[..i + 1];
    }
  }

  // ---------- the pending buffers ----------

  /** The buffers hold the part of the stream from `base` up to `cursor`. */
  ghost predicate Pending(tokens: seq<int>, docIds: seq<int>, stream: seq<int>, ids: seq<int>, base: nat, cursor: nat) {
    && |ids| == |stream|
    && base <= cursor <= |stream|
    && |tokens| == |docIds| == cursor - base
    && forall j {:trigger tokens[j]} {:trigger docIds[j]} :: 0 <= j < |tokens| ==>
         tokens[j] == stream[base + j] && docIds[j] == ids[base + j]
  }

  /** Cutting one window advances the buffers by `c` and extends the windows by one. */
  lemma {:induction false} CutExtends(ws: seq<Window>, tokens: seq<int>, docIds: seq<int>, stream: seq<int>,
        ids: seq<int>, c: nat, lo: nat, base: nat, cursor: nat)
    requires AreWindows(ws, stream, ids, c, lo) && StartsRow(base, c, lo + |ws|)
    requires Pending(tokens, docIds, stream, ids, base, cursor) && |tokens| >= c + 1
    ensures AreWindows(ws + [Window(tokens[..c + 1], docIds[..c + 1])], stream, ids, c, lo)
    ensures Pending(tokens[c..], docIds[c..], stream, ids, base + c, cursor)
  {
    var w := Window(tokens[..c + 1], docIds[..c + 1]);
    assert IsWindow(w, stream, ids, c, lo + |ws|);
  }

  /** At `cursor` the stream holds `piece`, all of it numbered `docIndex`. */
  ghost predicate PieceAt(piece: seq<int>, docIndex: int, stream: seq<int>, ids: seq<int>, cursor: nat) {
    && cursor + |piece| <= |stream| == |ids|
    && forall j :: 0 <= j < |piece| ==> piece[j] == stream[cursor + j] && ids[cursor + j] == docIndex
  }

  lemma {:induction false} PendingGrows(tokens: seq<int>, docIds: seq<int>, piece: seq<int>, docIndex: int,
        stream: seq<int>, ids: seq<int>, base: nat, cursor: nat)
    requires Pending(tokens, docIds, stream, ids, base, cursor)
    requires PieceAt(piece, docIndex, stream, ids, cursor)
    ensures Pending(tokens + piece, docIds + Repeat(docIndex, |piece|), stream, ids, base, cursor + |piece|)
  {
    forall j | 0 <= j < |tokens| + |piece|
      ensures (docIds + Repeat(docIndex, |piece|))[j] == ids[base + j]
      ensures (tokens + piece)[j] == stream[base + j]
    {
      if j >= |tokens| {
        assert piece[j - |tokens|] == stream[cursor + (j - |tokens|)];
      }
    }
  }

  /** The inner loop both packers share: append one piece of a document to the pending buffers,
      then cut windows while one is complete and, when there is a limit, fewer than `limit`
      have been cut. */
  method TakePiece(ws0: seq<Window>, tokens0: seq<int>, docIds0: seq<int>, piece: seq<int>, docIndex: nat, c: nat,
        limit: Option<int>, ghost stream: seq<int>, ghost ids: seq<int>, ghost lo: nat, ghost base0: nat,
        ghost cursor: nat)
    returns (ws: seq<Window>, tokens: seq<int>, docIds: seq<int>, ghost base: nat)
    requires c > 0 && AreWindows(ws0, stream, ids, c, lo)
    requires StartsRow(base0, c, lo + |ws0|) && Pending(tokens0, docIds0, stream, ids, base0, cursor)
    requires PieceAt(piece, docIndex, stream, ids, cursor)
    requires limit.Some? ==> |ws0| <= limit.value
    ensures AreWindows(ws, stream, ids, c, lo)
    ensures StartsRow(base, c, lo + |ws|) && Pending(tokens, docIds, stream, ids, base, cursor + |piece|)
    ensures limit.Some? ==> |ws| <= limit.value
    ensures |tokens| < c + 1 || (limit.Some? && |ws| == limit.value)
  {
    PendingGrows(tokens0, docIds0, piece, docIndex, stream, ids, base0, cursor);
    ws, base := ws0, base0;
    tokens := tokens0 + piece;
    docIds := docIds0 + Repeat<int>(docIndex, |piece|);
    while |tokens| >= c + 1 && (limit.None? || |ws| < limit.value)
      invariant AreWindows(ws, stream, ids, c, lo)
      invariant StartsRow(base, c, lo + |ws|) && Pending(tokens, docIds, stream, ids, base, cursor + |piece|)
      invariant limit.Some? ==> |ws| <= limit.value
      decreases |tokens|
    {
      CutExtends(ws, tokens, docIds, stream, ids, c, lo, base, cursor + |piece|);
      base := base + c;
      ws := ws + [Window(tokens[..c + 1], docIds[..c + 1])];
      tokens := tokens[c..];
      docIds := docIds[c..];
    }
  }

  // ---------- the streaming packer ----------

  datatype Status = Ok | BadArgument | Underflow

  /** Rows the streaming packer yields: all that fit, up to the limit. */
  function StreamCount(total: nat, c: nat, maxSamples: Option<int>): int
    requires c > 0
  {
    if maxSamples.Some? then Min(maxSamples.value, Windows(total, c)) else Windows(total, c)
  }

  /** `iter_packed_samples`: the rows it yields, in order. The input is the document list
      before empty documents are dropped. */
  method PackStream(docs: seq<seq<int>>, c: int, maxSamples: Option<int>)
    returns (rows: seq<Sample>, status: Status)
    ensures status.BadArgument? <==> c < 2 || (maxSamples.Some? && maxSamples.value < 0)
    ensures status.BadArgument? ==> rows == []
    ensures !status.BadArgument? ==>
              && status == Ok
              && |rows| == (if maxSamples.Some? && maxSamples.value < Windows(|Flatten(docs)|, c)
                            then maxSamples.value else Windows(|Flatten(docs)|, c))
              && rows == Rows(docs, c, 0, |rows|)
  {
    if c < 2 || (maxSamples.Some? && maxSamples.value < 0) {
      return [], BadArgument;
    }
    var ws := CutStream(docs, c, maxSamples);
    rows, status := LabelAll(ws), Ok;
    AreWindowsIsCut(ws, Flatten(docs), DenseOwners(docs), c, 0);
    NumberingsSamePattern(docs);
    CutAlike(Flatten(docs), Owners(docs), DenseOwners(docs), c, 0, |ws|);
    AlikeSameLabels(Cut(Flatten(docs), Owners(docs), c, 0, |ws|), ws);
  }

  /** The document loop of the streaming packer. */
  method CutStream(docs: seq<seq<int>>, c: nat, maxSamples: Option<int>) returns (ws: seq<Window>)
    requires c > 0 && (maxSamples.Some? ==> maxSamples.value >= 0)
    ensures |ws| == StreamCount(|Flatten(docs)|, c, maxSamples)
    ensures AreWindows(ws, Flatten(docs), DenseOwners(docs), c, 0)
  {
    ws := [];
    ghost var stream, ids, base, cursor := Flatten(docs), DenseOwners(docs), 0, 0;
    var tokens: seq<int>, docIds: seq<int>, docIndex := [], [], 0;
    assert docs[..0] == [];
    for i := 0 to |docs|
      invariant cursor == |Flatten(docs[..i])|
      invariant docIndex == CountNonEmpty(docs[..i])
      invariant StartsRow(base, c, 0 + |ws|) && Pending(tokens, docIds, stream, ids, base, cursor)
      invariant |tokens| < c + 1
      invariant AreWindows(ws, stream, ids, c, 0)
      invariant maxSamples.Some? ==> |ws| <= maxSamples.value
    {
      DocumentArrives(docs, i);
      if |docs[i]| > 0 {
        ws, tokens, docIds, base := TakePiece(ws, tokens, docIds, docs[i], docIndex, c, maxSamples,
                                              stream, ids, 0, base, cursor);
        docIndex := docIndex + 1;
        cursor := cursor + |docs[i]|;
        if |tokens| >= c + 1 {
          WindowsBound(ws, stream, ids, c);
          return;
        }
      }
    }
    assert docs[..|docs|] == docs;
    WindowsBound(ws, stream, ids, c);
  }

  lemma {:induction false} WindowsBound(ws: seq<Window>, stream: seq<int>, owners: seq<int>, c: nat)
    requires c > 0 && AreWindows(ws, stream, owners, c, 0)
    ensures |ws| <= Windows(|stream|, c)
    ensures |ws| < Windows(|stream|, c) <==> RowStart(c, |ws|) + c + 1 <= |stream|
  {
    WindowsExact(|stream|, c, |ws|);
    AreWindowsIsCut(ws, stream, owners, c, 0);
  }

  /** Document `i` is what the stream and both numberings hold at its place. */
  lemma {:induction false} DocumentArrives(docs: seq<seq<int>>, i: nat)
    requires i < |docs|
    ensures var lo := |Flatten(docs[..i])|;
            && |Flatten(docs[..i + 1])| == lo + |docs[i]|
            && PieceAt(docs[i], CountNonEmpty(docs[..i]), Flatten(docs), DenseOwners(docs), lo)
            && PieceAt(docs[i], i, Flatten(docs), Owners(docs), lo)
    ensures CountNonEmpty(docs[..i + 1]) == CountNonEmpty(docs[..i]) + (if docs[i] == [] then 0 else 1)
  {
    FlattenAt(docs, i);
    OwnersAt(docs, i);
    assert docs[..i + 1][..i] == docs[..i];
    var lo, n := |Flatten(docs[..i])|, |docs[i]|;
    forall j | 0 <= j < n
      ensures docs[i][j] == Flatten(docs)[lo + j]
      ensures DenseOwners(docs)[lo + j] == CountNonEmpty(docs[..i]) && Owners(docs)[lo + j] == i
    {
      assert Flatten(docs)[lo..lo + n][j] == Flatten(docs)[lo + j];
      assert Owners(docs)[lo..lo + n][j] == Owners(docs)[lo + j];
      assert DenseOwners(docs)[lo..lo + n][j] == DenseOwners(docs)[lo + j];
    }
  }
}
