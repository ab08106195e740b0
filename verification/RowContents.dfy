/** What stands in a packed row, said by the documents alone. */
module RowContents {
  import opened Seqs
  import opened Segments
  import opened ShardFit
  import opened ShardSize
  import P = Packing

  /** A non-empty document starts at token `p` of the stream. */
  ghost predicate DocumentStarts(docs: seq<seq<int>>, p: nat) {
    exists d :: 0 <= d < |docs| && StartsAt(docs, d, p)
  }

  ghost predicate StartsAt(docs: seq<seq<int>>, d: nat, p: nat)
    requires d < |docs|
  {
    docs[d] != [] && DocStart(docs, d) == p
  }

  lemma {:induction false} StartsOne(docs: seq<seq<int>>, p: nat)
    ensures StartsIn(docs, p, p + 1) > 0 <==> DocumentStarts(docs, p)
  {
    if docs != [] {
      var n := |docs| - 1;
      StartsOne(docs[..n], p);
      assert forall d :: 0 <= d < n ==> docs[..n][..d] == docs[..d];
      if DocumentStarts(docs, p) {
        var d :| 0 <= d < |docs| && StartsAt(docs, d, p);
        assert d < n ==> StartsAt(docs[..n], d, p);
      }
      if DocumentStarts(docs[..n], p) {
        var d :| 0 <= d < n && StartsAt(docs[..n], d, p);
        assert StartsAt(docs, d, p);
      }
      assert StartsAt(docs, n, p) <==> docs[n] != [] && DocStart(docs, n) == p;
    }
  }

  /** The numbering of documents changes exactly where a non-empty document starts. */
  lemma {:induction false} OwnersChange(docs: seq<seq<int>>, p: nat)
    requires 0 < p < |Flatten(docs)|
    ensures ChangesAt(P.Owners(docs), p) <==> DocumentStarts(docs, p)
  {
    ChangesAreStarts(docs, p, p + 1);
    StartsOne(docs, p);
    assert ChangesIn(P.Owners(docs), p + 1, p + 1) == 0;
  }

  /** The row holds the tokens of the stream from `base` on, the last one shared with the next row; its run
      lengths are positive and cover the context; and a new run starts exactly where a document does. */
  ghost predicate CutsAt(row: P.Sample, docs: seq<seq<int>>, c: nat, base: nat) {
    && base + c < |Flatten(docs)| && |row.tokens| == c + 1
    && (forall j :: 0 <= j <= c ==> row.tokens[j] == Flatten(docs)[base + j])
    && Sum(row.segmentLengths) == c
    && (forall k :: 0 <= k < |row.segmentLengths| ==> row.segmentLengths[k] > 0)
    && forall p: nat :: 0 < p < c ==> StartsTogether(row.segmentLengths, docs, base, p)
  }

  ghost predicate StartsTogether(lengths: seq<int>, docs: seq<seq<int>>, base: nat, p: nat) {
    StartsSegment(lengths, p) <==> DocumentStarts(docs, base + p)
  }

  lemma {:induction false} RunsStart(docs: seq<seq<int>>, c: nat, base: nat, p: nat)
    requires 0 < p < c && base + c < |Flatten(docs)|
    ensures StartsTogether(SegmentLengths(P.Owners(docs)[base..base + c]), docs, base, p)
  {
    var owners := P.Owners(docs);
    var ids := owners[base..base + c];
    SegmentsStartAtChanges(ids, p);
    OwnersChange(docs, base + p);
    assert ids[p] == owners[base + p] && ids[p - 1] == owners[base + p - 1];
  }

  lemma {:induction false} WindowCuts(docs: seq<seq<int>>, c: nat, base: nat, row: P.Sample)
    requires c > 0 && base + c < |Flatten(docs)| && row.tokens == Flatten(docs)[base..base + c + 1]
    requires row.segmentLengths == SegmentLengths(P.Owners(docs)[base..base + c])
    ensures CutsAt(row, docs, c, base)
  {
    SegmentLengthsCover(P.Owners(docs)[base..base + c]);
    forall p: nat | 0 < p < c
      ensures StartsTogether(row.segmentLengths, docs, base, p)
    {
      RunsStart(docs, c, base, p);
    }
  }

  lemma {:induction false} RowCuts(docs: seq<seq<int>>, c: nat, lo: nat, n: nat, i: nat)
    requires c > 0 && i < n && lo + n <= P.Windows(|Flatten(docs)|, c)
    ensures CutsAt(P.Rows(docs, c, lo, n)[i], docs, c, P.RowStart(c, lo + i))
  {
    P.RowAt(docs, c, lo, n, i);
    WindowParts(Flatten(docs), P.Owners(docs), c, lo + i);
    WindowCuts(docs, c, P.RowStart(c, lo + i), P.Rows(docs, c, lo, n)[i]);
  }

  /** Row `i` of a range is cut at its place: every row starts `c` tokens behind the one before. */
  lemma {:induction false} RowExact(docs: seq<seq<int>>, c: nat, lo: nat, n: nat, i: nat, base: nat)
    requires c > 0 && i < n && lo + n <= P.Windows(|Flatten(docs)|, c) && base == (lo + i) * c
    ensures CutsAt(P.Rows(docs, c, lo, n)[i], docs, c, base)
  {
    P.RowStartIs(c, lo + i);
    RowCuts(docs, c, lo, n, i);
  }
}
