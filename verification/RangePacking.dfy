/** Producing any range of packed rows directly from the tokenized shards
    (`iter_packed_samples_range`). */
module RangePacking {
  import opened Seqs
  import opened Packing

  /** Document `i` of shard `s` in the list of all documents. */
  lemma {:induction false} DocumentPlace(shards: seq<Shard>, s: nat, i: nat)
    requires ValidShards(shards) && s < |shards| && i < |shards[s].offsets| - 1
    ensures ValidShards(shards[..s]) && shards[s].DocumentOk(i)
    ensures var k := |AllDocuments(shards[..s])| + i;
            && k < |AllDocuments(shards)|
            && AllDocuments(shards)[k] == shards[s].Document(i)
  {
    var last := shards[|shards| - 1];
    assert last.Valid();
    if s == |shards| - 1 {
      DocumentsAt(last, |last.offsets| - 1, i);
    } else {
      var rest := shards[..|shards| - 1];
      DocumentPlace(rest, s, i);
      assert rest[..s] == shards[..s];
    }
  }

  lemma {:induction false} DocumentsAt(shard: Shard, n: nat, i: nat)
    requires shard.Valid() && i < n < |shard.offsets|
    ensures shard.DocumentOk(i) && shard.Documents(n)[i] == shard.Document(i)
  {
    if i < n - 1 {
      DocumentsAt(shard, n - 1, i);
    }
  }

  /** Documents `k`, `k + 1`, ... of the list are the documents of the shard. */
  ghost predicate Holds(docs: seq<seq<int>>, k: nat, shard: Shard) {
    && |shard.offsets| > 0
    && k + |shard.offsets| - 1 <= |docs|
    && forall i: nat :: i + 1 < |shard.offsets| ==> shard.DocumentOk(i) && docs[k + i] == shard.Document(i)
  }

  lemma {:induction false} DocumentsBefore(shards: seq<Shard>, s: nat)
    requires ValidShards(shards) && s < |shards|
    ensures ValidShards(shards[..s]) && ValidShards(shards[..s + 1])
    ensures Holds(AllDocuments(shards), |AllDocuments(shards[..s])|, shards[s])
    ensures |AllDocuments(shards[..s + 1])| == |AllDocuments(shards[..s])| + |shards[s].offsets| - 1
  {
    assert shards[..s + 1][..s] == shards[..s];
    assert shards[s].Valid();
    var k, n := |AllDocuments(shards[..s])|, |shards[s].offsets|;
    forall i: nat | i + 1 < n
      ensures shards[s].DocumentOk(i) && k + i < |AllDocuments(shards)|
      ensures AllDocuments(shards)[k + i] == shards[s].Document(i)
    {
      DocumentPlace(shards, s, i);
    }
    DocumentCount(shards, s);
  }

  lemma {:induction false} DocumentCount(shards: seq<Shard>, s: nat)
    requires ValidShards(shards) && s < |shards|
    ensures ValidShards(shards[..s]) && shards[s].Valid()
    ensures |AllDocuments(shards[..s])| + |shards[s].offsets| - 1 <= |AllDocuments(shards)|
  {
    if s < |shards| - 1 {
      DocumentCount(shards[..|shards| - 1], s);
      assert shards[..|shards| - 1][..s] == shards[..s];
    }
  }

  /** The sample range being produced and the token range it needs. */
  datatype Range = Range(c: nat, start: nat, count: nat, startToken: nat, endToken: nat) {
    ghost predicate Valid() {
      && c > 0
      && startToken == RowStart(c, start)
      && endToken == RowStart(c, start + count) + 1
      && startToken < endToken
    }
  }

  /** The buffers and windows of the range packer. */
  datatype Buffers = Buffers(windows: seq<Window>, tokens: seq<int>, docIds: seq<int>)

  /** State of the range packer when the documents up to global token `cursor` were visited;
      `base` is where the pending buffers start. */
  ghost predicate RangeState(b: Buffers, r: Range, stream: seq<int>, ids: seq<int>, base: nat, cursor: nat) {
    && AreWindows(b.windows, stream, ids, r.c, r.start)
    && |b.windows| <= r.count
    && cursor <= |stream|
    && StartsRow(base, r.c, r.start + |b.windows|)
    && (cursor <= r.startToken ==> |b.windows| == |b.tokens| == |b.docIds| == 0)
    && (cursor > r.startToken ==> Pending(b.tokens, b.docIds, stream, ids, base, Min(cursor, r.endToken)))
    && (|b.tokens| < r.c + 1 || |b.windows| == r.count)
  }

  function MakeRange(c: nat, start: nat, count: nat): (r: Range)
    requires c > 0
    ensures r.Valid()
  {
    RowStartIs(c, start);
    RowStartIs(c, start + count);
    assert start * c + count * c == (start + count) * c;
    Range(c, start, count, start * c, start * c + count * c + 1)
  }

  lemma {:induction false} RowStartMonotone(c: nat, j: nat, k: nat)
    requires j <= k
    ensures RowStart(c, j) <= RowStart(c, k)
    ensures j < k ==> RowStart(c, j) + c <= RowStart(c, k)
  {
    if j < k {
      RowStartMonotone(c, j, k - 1);
    }
  }

  /** Once the end token was reached the range is complete. */
  lemma {:induction false} RangeReached(b: Buffers, r: Range, stream: seq<int>, ids: seq<int>, base: nat, cursor: nat)
    requires r.Valid() && RangeState(b, r, stream, ids, base, cursor) && cursor >= r.endToken
    ensures |b.windows| == r.count
  {
    RowStartMonotone(r.c, r.start + |b.windows|, r.start + r.count);
  }

  /** When the stream is exhausted every row of the range that exists was cut. */
  lemma {:induction false} RangeExhausted(b: Buffers, r: Range, stream: seq<int>, ids: seq<int>, base: nat)
    requires r.Valid() && RangeState(b, r, stream, ids, base, |stream|)
    ensures |b.windows| == RangeCount(|stream|, r)
  {
    RowStartMonotone(r.c, r.start + |b.windows|, r.start + r.count);
    WindowsExact(|stream|, r.c, r.start + |b.windows|);
    AreWindowsIsCut(b.windows, stream, ids, r.c, r.start);
  }

  /** The rows of the range that the stream has. */
  function RangeCount(total: nat, r: Range): int
    requires r.c > 0
  {
    Min(r.count, Max(0, Windows(total, r.c) - r.start))
  }

  /** `iter_packed_samples_range`: the rows it yields; `Underflow` is the error it raises after
      yielding too few. */
  method PackRange(shards: seq<Shard>, c: int, sampleStart: int, sampleCount: int)
    returns (rows: seq<Sample>, status: Status)
    requires ValidShards(shards)
    ensures status.BadArgument? <==> c < 2 || sampleStart < 0 || sampleCount < 0
    ensures status.BadArgument? ==> rows == []
    ensures !status.BadArgument? ==>
              var docs := AllDocuments(shards);
              var n := Min(sampleCount, Max(0, Windows(|Flatten(docs)|, c) - sampleStart));
              && rows == Rows(docs, c, sampleStart, n)
              && (status.Ok? <==> n == sampleCount)
  {
    if c < 2 || sampleStart < 0 || sampleCount < 0 {
      return [], BadArgument;
    }
    if sampleCount == 0 {
      return [], Ok;
    }
    var ws := CutRange(shards, MakeRange(c, sampleStart, sampleCount));
    rows := LabelAll(ws);
    AreWindowsIsCut(ws, Flatten(AllDocuments(shards)), Owners(AllDocuments(shards)), c, sampleStart);
    status := if |ws| != sampleCount then Underflow else Ok;
  }

  /** The shard loop of the range packer. */
  method CutRange(shards: seq<Shard>, r: Range) returns (ws: seq<Window>)
    requires ValidShards(shards) && r.Valid()
    ensures var docs := AllDocuments(shards);
            && |ws| == RangeCount(|Flatten(docs)|, r)
            && AreWindows(ws, Flatten(docs), Owners(docs), r.c, r.start)
  {
    ghost var docs := AllDocuments(shards);
    ghost var stream, ids, base := Flatten(docs), Owners(docs), r.startToken;
    var tokenCursor, docIndex, done, b := 0, 0, false, Buffers([], [], []);
    assert shards[..0] == [] && docs[..0] == [];
    var s := 0;
    while s < |shards| && !done
      invariant s <= |shards|
      invariant !done ==> ValidShards(shards[..s]) && docIndex == |AllDocuments(shards[..s])| <= |docs|
      invariant !done ==> tokenCursor == |Flatten(docs[..docIndex])|
      invariant !done ==> RangeState(b, r, stream, ids, base, tokenCursor)
      invariant done ==> AreWindows(b.windows, stream, ids, r.c, r.start) && |b.windows| == r.count
    {
      DocumentsBefore(shards, s);
      b, tokenCursor, docIndex, done, base :=
        PackShard(shards[s], r, b, tokenCursor, docIndex, docs, stream, ids, base);
      s := s + 1;
    }
    ws := b.windows;
    if done {
      AreWindowsIsCut(ws, stream, ids, r.c, r.start);
    } else {
      assert docs[..|docs|] == docs && shards[..|shards|] == shards;
      RangeExhausted(b, r, stream, ids, base);
    }
  }

  /** Document `i` of a shard, number `docIndex` of the stream. */
  method PackDocument(shard: Shard, r: Range, b0: Buffers, tokenCursor0: nat, i: nat, docIndex: nat,
        ghost docs: seq<seq<int>>, ghost stream: seq<int>, ghost ids: seq<int>, ghost base0: nat)
    returns (b: Buffers, tokenCursor: nat, done: bool, ghost base: nat)
    requires r.Valid() && i + 1 < |shard.offsets| && shard.DocumentOk(i)
    requires docIndex < |docs| && docs[docIndex] == shard.Document(i)
    requires stream == Flatten(docs) && ids == Owners(docs)
    requires tokenCursor0 == |Flatten(docs[..docIndex])|
    requires RangeState(b0, r, stream, ids, base0, tokenCursor0)
    ensures done ==> AreWindows(b.windows, stream, ids, r.c, r.start) && |b.windows| == r.count
    ensures !done ==> tokenCursor == |Flatten(docs[..docIndex + 1])| && RangeState(b, r, stream, ids, base, tokenCursor)
  {
    assert shard.DocumentOk(i);
    DocumentArrives(docs, docIndex);
    var docBegin, docEnd := shard.offsets[i], shard.offsets[i + 1];
    b, done, base := VisitDocument(shard.tokens, docBegin, docEnd, docIndex, r, b0, tokenCursor0, stream, ids, base0);
    tokenCursor := tokenCursor0 + (docEnd - docBegin);
  }

  /** The documents of one shard; `done` reports that the packer returned. */
  method PackShard(shard: Shard, r: Range, b0: Buffers, tokenCursor0: nat, docIndex0: nat, ghost docs: seq<seq<int>>,
        ghost stream: seq<int>, ghost ids: seq<int>, ghost base0: nat)
    returns (b: Buffers, tokenCursor: nat, docIndex: nat, done: bool, ghost base: nat)
    requires Holds(docs, docIndex0, shard) && r.Valid()
    requires stream == Flatten(docs) && ids == Owners(docs)
    requires tokenCursor0 == |Flatten(docs[..docIndex0])|
    requires RangeState(b0, r, stream, ids, base0, tokenCursor0)
    ensures done ==> AreWindows(b.windows, stream, ids, r.c, r.start) && |b.windows| == r.count
    ensures !done ==> docIndex == docIndex0 + |shard.offsets| - 1
    ensures !done ==> tokenCursor == |Flatten(docs[..docIndex])|
    ensures !done ==> RangeState(b, r, stream, ids, base, tokenCursor)
  {
    b, tokenCursor, docIndex, done, base := b0, tokenCursor0, docIndex0, false, base0;
    for i := 0 to |shard.offsets| - 1
      invariant docIndex == docIndex0 + i
      invariant tokenCursor == |Flatten(docs[..docIndex])|
      invariant RangeState(b, r, stream, ids, base, tokenCursor)
    {
      b, tokenCursor, done, base := PackDocument(shard, r, b, tokenCursor, i, docIndex, docs, stream, ids, base);
      if done {
        return;
      }
      docIndex := docIndex + 1;
    }
  }

  /** One document: skip it before the range, stop after the range, else clip it to the range
      and take the piece. */
  method VisitDocument(file: seq<int>, docBegin: nat, docEnd: nat, docIndex: nat, r: Range, b0: Buffers, cursor: nat,
        ghost stream: seq<int>, ghost ids: seq<int>, ghost base0: nat)
    returns (b: Buffers, done: bool, ghost base: nat)
    requires r.Valid() && RangeState(b0, r, stream, ids, base0, cursor)
    requires docBegin <= docEnd <= |file|
    requires PieceAt(file[docBegin..docEnd], docIndex, stream, ids, cursor)
    ensures done ==> AreWindows(b.windows, stream, ids, r.c, r.start) && |b.windows| == r.count
    ensures !done ==> RangeState(b, r, stream, ids, base, cursor + (docEnd - docBegin))
  {
    var docLen := docEnd - docBegin;
    b, done, base := b0, false, base0;
    if cursor + docLen <= r.startToken {
      return;
    }
    if cursor >= r.endToken {
      RangeReached(b, r, stream, ids, base, cursor);
      return b, true, base;
    }
    b, base := TakeClipped(file, docBegin, docEnd, docIndex, r, b, cursor, stream, ids, base);
    done := |b.windows| >= r.count;
  }

  /** A document that overlaps the range: clip it to the range and take the piece. */
  method TakeClipped(file: seq<int>, docBegin: nat, docEnd: nat, docIndex: nat, r: Range, b0: Buffers, cursor: nat,
        ghost stream: seq<int>, ghost ids: seq<int>, ghost base0: nat)
    returns (b: Buffers, ghost base: nat)
    requires r.Valid() && RangeState(b0, r, stream, ids, base0, cursor)
    requires docBegin <= docEnd <= |file|
    requires PieceAt(file[docBegin..docEnd], docIndex, stream, ids, cursor)
    requires r.startToken < cursor + (docEnd - docBegin) && cursor < r.endToken
    ensures RangeState(b, r, stream, ids, base, cursor + (docEnd - docBegin))
  {
    b, base := b0, base0;
    var docLen := docEnd - docBegin;
    var localBegin := Max(0, r.startToken - cursor);
    var localEnd := Min(docLen, r.endToken - cursor);
    if localEnd > localBegin {
      var piece := file[docBegin + localBegin..docBegin + localEnd];
      ClipPiece(file, docBegin, docEnd, docIndex, stream, ids, cursor, localBegin, localEnd);
      b, base := TakeInside(piece, docIndex, r, b0, cursor, cursor + docLen, stream, ids, base0);
    }
  }

  /** The part of a document that lies inside the range. */
  method TakeInside(piece: seq<int>, docIndex: nat, r: Range, b0: Buffers, ghost cursor: nat, ghost end: nat,
        ghost stream: seq<int>, ghost ids: seq<int>, ghost base0: nat)
    returns (b: Buffers, ghost base: nat)
    requires r.Valid() && RangeState(b0, r, stream, ids, base0, cursor)
    requires PieceAt(piece, docIndex, stream, ids, Max(cursor, r.startToken)) && piece != []
    requires cursor < r.endToken && r.startToken < end <= |stream|
    requires Max(cursor, r.startToken) + |piece| == Min(end, r.endToken)
    ensures RangeState(b, r, stream, ids, base, end)
  {
    StateBefore(b0, r, stream, ids, base0, cursor);
    ghost var from := Max(cursor, r.startToken);
    var ws, tokens, docIds;
    ws, tokens, docIds, base := TakePiece(b0.windows, b0.tokens, b0.docIds, piece, docIndex, r.c, Some(r.count),
                                          stream, ids, r.start, base0, from);
    StateAfter(ws, tokens, docIds, r, stream, ids, base, end, from + |piece|);
    b := Buffers(ws, tokens, docIds);
  }

  /** Before the range starts the buffers are empty, which is what row `start` needs. */
  lemma {:induction false} StateBefore(b: Buffers, r: Range, stream: seq<int>, ids: seq<int>, base: nat, cursor: nat)
    requires r.Valid() && RangeState(b, r, stream, ids, base, cursor)
    requires cursor < r.endToken && r.startToken <= |stream|
    ensures AreWindows(b.windows, stream, ids, r.c, r.start) && StartsRow(base, r.c, r.start + |b.windows|)
    ensures Pending(b.tokens, b.docIds, stream, ids, base, Max(cursor, r.startToken))
  {
  }

  lemma {:induction false} StateAfter(ws: seq<Window>, tokens: seq<int>, docIds: seq<int>, r: Range, stream: seq<int>,
        ids: seq<int>, base: nat, next: nat, reach: nat)
    requires AreWindows(ws, stream, ids, r.c, r.start) && |ws| <= r.count
    requires StartsRow(base, r.c, r.start + |ws|)
    requires Pending(tokens, docIds, stream, ids, base, reach) && reach == Min(next, r.endToken)
    requires r.startToken < next <= |stream|
    requires |tokens| < r.c + 1 || |ws| == r.count
    ensures RangeState(Buffers(ws, tokens, docIds), r, stream, ids, base, next)
  {
  }

  lemma {:induction false} ClipPiece(file: seq<int>, docBegin: nat, docEnd: nat, docIndex: nat, stream: seq<int>,
        ids: seq<int>, cursor: nat, lo: nat, hi: nat)
    requires lo <= hi <= docEnd - docBegin && docEnd <= |file|
    requires PieceAt(file[docBegin..docEnd], docIndex, stream, ids, cursor)
    ensures PieceAt(file[docBegin + lo..docBegin + hi], docIndex, stream, ids, cursor + lo)
  {
    var doc, piece := file[docBegin..docEnd], file[docBegin + lo..docBegin + hi];
    forall j | 0 <= j < |piece|
      ensures piece[j] == stream[cursor + lo + j] && ids[cursor + lo + j] == docIndex
    {
      assert piece[j] == doc[lo + j];
      assert doc[lo + j] == stream[cursor + (lo + j)] && ids[cursor + (lo + j)] == docIndex;
    }
  }
}
