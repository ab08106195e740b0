/** The exact size of a planned shard, read off the documents alone. */
module ShardSize {
  import opened Arith
  import opened Seqs
  import opened Segments
  import opened GddsShard
  import opened Parallel
  import opened ShardFit
  import P = Packing

  /** Token position where document `j` starts. */
  function DocStart(docs: seq<seq<int>>, j: nat): nat
    requires j <= |docs|
  {
    |Flatten(docs[..j])|
  }

  /** The non-empty documents that start at `p`, ..., `q - 1`. */
  function StartsIn(docs: seq<seq<int>>, p: nat, q: nat): nat {
    if docs == [] then 0
    else
      var n := |docs| - 1;
      StartsIn(docs[..n], p, q) + (if docs[n] != [] && p <= DocStart(docs, n) < q then 1 else 0)
  }

  /** The document changes at `p`, ..., `q - 1`. */
  function ChangesIn(ids: seq<int>, p: nat, q: nat): nat
    requires p > 0
    decreases q - p
  {
    if p >= q then 0 else (if p < |ids| && ChangesAt(ids, p) then 1 else 0) + ChangesIn(ids, p + 1, q)
  }

  lemma {:induction false} ChangesCounted(ids: seq<int>, a: nat, b: nat, i: nat)
    requires a <= b <= |ids| && 1 <= i
    ensures |Changes(ids[a..b], i)| == ChangesIn(ids, a + i, b)
    decreases b - a - i
  {
    if a + i < b {
      assert ChangesAt(ids[a..b], i) <==> ChangesAt(ids, a + i);
      ChangesCounted(ids, a, b, i + 1);
    }
  }

  /** A run with a new number adds one change, at its start. */
  lemma {:induction false} ChangesAppend(ids: seq<int>, x: int, n: nat, p: nat, q: nat)
    requires p > 0 && n > 0 && (ids != [] ==> ids[|ids| - 1] != x)
    ensures ChangesIn(ids + Repeat(x, n), p, q) == ChangesIn(ids, p, q) + (if p <= |ids| < q then 1 else 0)
    decreases q - p
  {
    if p < q {
      ChangesAppend(ids, x, n, p + 1, q);
      var r := ids + Repeat(x, n);
      if p < |ids| {
        assert ChangesAt(r, p) <==> ChangesAt(ids, p);
      } else if p < |r| {
        assert ChangesAt(r, p) <==> p == |ids|;
      }
    }
  }

  /** The numbering changes exactly where non-empty documents start. */
  lemma {:induction false} ChangesAreStarts(docs: seq<seq<int>>, p: nat, q: nat)
    requires p > 0
    ensures ChangesIn(P.Owners(docs), p, q) == StartsIn(docs, p, q)
    decreases |docs|
  {
    if docs == [] {
      NoChanges(p, q);
    } else {
      var n := |docs| - 1;
      ChangesAreStarts(docs[..n], p, q);
      if docs[n] != [] {
        ChangesAppend(P.Owners(docs[..n]), n, |docs[n]|, p, q);
      } else {
        assert P.Owners(docs[..n]) + [] == P.Owners(docs[..n]);
      }
    }
  }

  lemma {:induction false} NoChanges(p: nat, q: nat)
    requires p > 0
    ensures ChangesIn([], p, q) == 0
    decreases q - p
  {
    if p < q {
      NoChanges(p + 1, q);
    }
  }

  /** A row has one segment more than documents start behind its first token. */
  lemma {:induction false} RowSegments(docs: seq<seq<int>>, c: nat, k: nat)
    requires c > 0 && k < P.Windows(|Flatten(docs)|, c)
    ensures var row, base := P.WindowAt(Flatten(docs), P.Owners(docs), c, k).Label(), P.RowStart(c, k);
            |row.segmentLengths| == 1 + StartsIn(docs, base + 1, base + c)
  {
    var base := P.RowStart(c, k);
    WindowParts(Flatten(docs), P.Owners(docs), c, k);
    ChangesCounted(P.Owners(docs), base, base + c, 1);
    ChangesAreStarts(docs, base + 1, base + c);
  }

  // ---------- a whole range ----------

  /** The document starts inside a row of the range: in its span, and not at the first token of a row. */
  ghost predicate InsideRow(c: nat, lo: nat, n: nat, p: nat)
    requires c > 0
  {
    P.RowStart(c, lo) < p < P.RowStart(c, lo + n) && p % c != 0
  }

  /** The non-empty documents that start inside a row of the range. */
  ghost function Boundaries(docs: seq<seq<int>>, c: nat, lo: nat, n: nat): nat
    requires c > 0
  {
    if docs == [] then 0
    else
      var m := |docs| - 1;
      Boundaries(docs[..m], c, lo, n) + (if docs[m] != [] && InsideRow(c, lo, n, DocStart(docs, m)) then 1 else 0)
  }

  lemma {:induction false} RowMultiples(c: nat, k: nat, p: nat)
    requires c > 0 && P.RowStart(c, k) <= p < P.RowStart(c, k) + c
    ensures p % c != 0 <==> P.RowStart(c, k) < p
  {
    P.RowStartIs(c, k);
    DivUnique(p, c, k, p - k * c);
  }

  lemma {:induction false} RowStartGrows(c: nat, lo: nat, n: nat)
    ensures P.RowStart(c, lo) <= P.RowStart(c, lo + n)
  {
    if n > 0 {
      RowStartGrows(c, lo, n - 1);
    }
  }

  /** One more row has the starts behind its first token. */
  lemma {:induction false} InsideOneMore(c: nat, lo: nat, n: nat, p: nat)
    requires c > 0
    ensures var base := P.RowStart(c, lo + n);
            && (InsideRow(c, lo, n + 1, p) <==> InsideRow(c, lo, n, p) || base + 1 <= p < base + c)
            && !(InsideRow(c, lo, n, p) && base + 1 <= p < base + c)
  {
    var base := P.RowStart(c, lo + n);
    RowStartGrows(c, lo, n);
    assert P.RowStart(c, lo + n + 1) == base + c;
    if base <= p < base + c {
      RowMultiples(c, lo + n, p);
    }
  }

  lemma {:induction false} BoundariesOneMore(docs: seq<seq<int>>, c: nat, lo: nat, n: nat)
    requires c > 0
    ensures var base := P.RowStart(c, lo + n);
            Boundaries(docs, c, lo, n + 1) == Boundaries(docs, c, lo, n) + StartsIn(docs, base + 1, base + c)
    decreases |docs|
  {
    if docs != [] {
      var m := |docs| - 1;
      BoundariesOneMore(docs[..m], c, lo, n);
      InsideOneMore(c, lo, n, DocStart(docs, m));
    }
  }

  lemma {:induction false} NoBoundaries(docs: seq<seq<int>>, c: nat, lo: nat)
    requires c > 0
    ensures Boundaries(docs, c, lo, 0) == 0
    decreases |docs|
  {
    if docs != [] {
      NoBoundaries(docs[..|docs| - 1], c, lo);
    }
  }

  /** Segments of the first `m` rows. */
  function CountTo(rows: seq<P.Sample>, m: nat): nat
    requires m <= |rows|
  {
    if m == 0 then 0 else CountTo(rows, m - 1) + |rows[m - 1].segmentLengths|
  }

  lemma {:induction false} CountToPrefix(rows: seq<P.Sample>, more: seq<P.Sample>, m: nat)
    requires m <= |rows| <= |more| && forall i :: 0 <= i < m ==> rows[i] == more[i]
    ensures CountTo(rows, m) == CountTo(more, m)
  {
    if m > 0 {
      CountToPrefix(rows, more, m - 1);
    }
  }

  lemma {:induction false} CountToAll(rows: seq<P.Sample>)
    ensures SegmentCount(rows) == CountTo(rows, |rows|)
  {
    if rows != [] {
      CountToAll(rows[..|rows| - 1]);
      CountToPrefix(rows[..|rows| - 1], rows, |rows| - 1);
    }
  }

  lemma {:induction false} RowOfRange(docs: seq<seq<int>>, c: nat, lo: nat, n: nat, i: nat)
    requires c > 0 && i < n && lo + n <= P.Windows(|Flatten(docs)|, c)
    ensures |P.Rows(docs, c, lo, n)[i].segmentLengths|
            == 1 + StartsIn(docs, P.RowStart(c, lo + i) + 1, P.RowStart(c, lo + i) + c)
  {
    P.RowAt(docs, c, lo, n, i);
    RowSegments(docs, c, lo + i);
  }

  /** The segments of the first rows of a range: one per row, and one per document that starts inside a
      row. */
  lemma {:induction false} SegmentsExact(docs: seq<seq<int>>, c: nat, lo: nat, n: nat, m: nat)
    requires c > 0 && m <= n && (n > 0 ==> lo + n <= P.Windows(|Flatten(docs)|, c))
    ensures CountTo(P.Rows(docs, c, lo, n), m) == m + Boundaries(docs, c, lo, m)
  {
    if m == 0 {
      NoBoundaries(docs, c, lo);
    } else {
      SegmentsExact(docs, c, lo, n, m - 1);
      RowOfRange(docs, c, lo, n, m - 1);
      BoundariesOneMore(docs, c, lo, m - 1);
    }
  }

  /** Bytes of a shard with `n` rows and `b` documents that start inside a row. */
  function ExactSize(c: nat, n: nat, b: nat): nat {
    Projected(DATA_OFFSET, n * (2 * c + 198) + 4 * (n + b), n)
  }

  /** Exactly how large a planned shard is, for any documents: a function of the number of rows and of
      how many documents start inside them. So it fits exactly when this size does. */
  lemma {:induction false} ShardFitsExactly(docs: seq<seq<int>>, c: nat, maxShardBytes: nat, r: PlanRange)
    requires c > 0 && r.start + r.count <= P.Windows(|Flatten(docs)|, c)
    ensures ShardBytes(RangeRows(docs, c, r)) == ExactSize(c, r.count, Boundaries(docs, c, r.start, r.count))
    ensures ShardBytes(RangeRows(docs, c, r)) <= maxShardBytes <==>
            ExactSize(c, r.count, Boundaries(docs, c, r.start, r.count)) <= maxShardBytes
  {
    RowsFullWidth(docs, c, r.start, r.count);
    RowsBytesExact(RangeRows(docs, c, r), c);
    SegmentsExact(docs, c, r.start, r.count, r.count);
    CountToAll(RangeRows(docs, c, r));
  }
}
