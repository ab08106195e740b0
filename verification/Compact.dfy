/** Expanded training samples and the compact ones that replace them (`iter_lm_samples`,
    `iter_compact_lm_samples`): what the compact form keeps and what it loses. */
module Compact {
  import opened Seqs
  import opened Segments
  import P = Packing

  const MASKED: int := -1

  /** An expanded sample of `c` inputs. */
  datatype Expanded = Expanded(inputs: seq<int>, positions: seq<int>, targets: seq<int>, segmentLengths: seq<int>)

  /** A window with at least one input. */
  ghost predicate WindowOk(w: P.Window) {
    |w.tokens| == |w.docIds| >= 2
  }

  /** Distance from the last document change, or from the start of the row. */
  function PositionOf(ids: seq<int>, p: nat): int
    requires p < |ids|
  {
    if p == 0 || ChangesAt(ids, p) then 0 else 1 + PositionOf(ids, p - 1)
  }

  function PositionsOf(ids: seq<int>): (r: seq<int>)
    ensures |r| == |ids| && forall p :: 0 <= p < |r| ==> r[p] == PositionOf(ids, p)
  {
    seq(|ids|, p requires 0 <= p < |ids| => PositionOf(ids, p))
  }

  /** The next token, masked where it belongs to another document. */
  function TargetsOf(tokens: seq<int>, docIds: seq<int>): (r: seq<int>)
    requires |tokens| == |docIds| > 0
    ensures |r| == |tokens| - 1
    ensures forall i :: 0 <= i < |r| ==> r[i] == if docIds[i] != docIds[i + 1] then MASKED else tokens[i + 1]
  {
    seq(|tokens| - 1, i requires 0 <= i < |tokens| - 1 => if docIds[i] != docIds[i + 1] then MASKED else tokens[i + 1])
  }

  /** The expanded sample of a window. */
  function Expand(w: P.Window): Expanded
    requires WindowOk(w)
  {
    var c := |w.tokens| - 1;
    Expanded(w.tokens[..c], PositionsOf(w.docIds[..c]), TargetsOf(w.tokens, w.docIds), SegmentLengths(w.docIds[..c]))
  }

  // ---------- the code ----------

  /** `_segment_lengths_and_positions`; the positions are filled segment by segment. */
  method SegmentLengthsAndPositions(ids: seq<int>) returns (lengths: seq<int>, positions: seq<int>)
    requires ids != []
    ensures lengths == SegmentLengths(ids) && positions == PositionsOf(ids)
  {
    var b := Bounds(ids);
    lengths := Diff(b);
    var filled := new int[|ids|];
    BoundsIncrease(ids);
    for k := 0 to |b| - 1
      invariant 0 <= b[k] <= |ids| && FilledTo(filled[..], ids, b[k])
    {
      for p := b[k] to b[k + 1]
        invariant FilledTo(filled[..], ids, p)
      {
        InSegment(ids, k, p);
        filled[p] := p - b[k];
      }
    }
    positions := filled[..];
  }

  ghost predicate FilledTo(positions: seq<int>, ids: seq<int>, n: nat) {
    n <= |ids| == |positions| && forall p :: 0 <= p < n ==> positions[p] == PositionOf(ids, p)
  }

  lemma {:induction false} BoundsIncrease(ids: seq<int>)
    requires ids != []
    ensures var b := Bounds(ids);
            && b[0] == 0 && b[|b| - 1] == |ids| && |b| >= 2
            && (forall k :: 0 <= k < |b| ==> 0 <= b[k] <= |ids|)
            && (forall k :: 0 <= k < |b| - 1 ==> b[k] < b[k + 1])
  {
    ChangesExact(ids, 1);
    var cs, b := Changes(ids, 1), Bounds(ids);
    assert forall k :: 1 <= k < |b| - 1 ==> b[k] == cs[k - 1];
  }

  /** Between two bounds nothing changes, so positions count up from the lower bound. */
  lemma {:induction false} InSegment(ids: seq<int>, k: nat, p: nat)
    requires ids != [] && k + 1 < |Bounds(ids)| && Bounds(ids)[k] <= p < Bounds(ids)[k + 1]
    ensures p < |ids| && PositionOf(ids, p) == p - Bounds(ids)[k]
  {
    BoundsIncrease(ids);
    if p > Bounds(ids)[k] {
      InSegment(ids, k, p - 1);
      NoChangeInside(ids, k, p);
    } else if k > 0 {
      BoundIsChange(ids, k);
    }
  }

  lemma {:induction false} BoundIsChange(ids: seq<int>, k: nat)
    requires ids != [] && 0 < k < |Bounds(ids)| - 1
    ensures 0 < Bounds(ids)[k] < |ids| && ChangesAt(ids, Bounds(ids)[k])
  {
    ChangesExact(ids, 1);
    var cs := Changes(ids, 1);
    assert Bounds(ids)[k] == cs[k - 1] && cs[k - 1] in cs;
  }

  lemma {:induction false} NoChangeInside(ids: seq<int>, k: nat, p: nat)
    requires ids != [] && k + 1 < |Bounds(ids)| && Bounds(ids)[k] < p < Bounds(ids)[k + 1] && 0 < p < |ids|
    ensures !ChangesAt(ids, p)
  {
    ChangesExact(ids, 1);
    var cs, b := Changes(ids, 1), Bounds(ids);
    forall j | 0 <= j < |cs|
      ensures cs[j] != p
    {
      if j < k {
        assert b[k] == cs[k - 1];
      } else if k < |cs| {
        assert b[k + 1] == cs[k];
      }
    }
  }

  /** The body of the loop of `iter_lm_samples`. */
  method ExpandRow(w: P.Window) returns (r: Expanded)
    requires WindowOk(w)
    ensures r == Expand(w)
  {
    var c := |w.tokens| - 1;
    var targets := new int[c];
    for i := 0 to c
      invariant forall j :: 0 <= j < i ==> targets[j] == w.tokens[j + 1]
    {
      targets[i] := w.tokens[i + 1];
    }
    for i := 0 to c
      invariant forall j :: 0 <= j < i ==> targets[j] == TargetsOf(w.tokens, w.docIds)[j]
      invariant forall j :: i <= j < c ==> targets[j] == w.tokens[j + 1]
    {
      if w.docIds[i] != w.docIds[i + 1] {
        targets[i] := MASKED;
      }
    }
    var lengths, positions := SegmentLengthsAndPositions(w.docIds[..c]);
    assert targets[..] == TargetsOf(w.tokens, w.docIds);
    r := Expanded(w.tokens[..c], positions, targets[..], lengths);
  }

  // ---------- recovering the expanded form ----------

  /** `0, ..., n - 1`. */
  function Range(n: int): (r: seq<int>)
    requires n >= 0
    ensures |r| == n && forall i :: 0 <= i < n ==> r[i] == i
  {
    seq(n, i => i)
  }

  /** Positions from run lengths alone. */
  function RecoverPositions(lengths: seq<int>): seq<int> {
    if lengths == [] then []
    else RecoverPositions(lengths[..|lengths| - 1]) + Range(Max(0, lengths[|lengths| - 1]))
  }

  /** Targets from tokens and run lengths alone: masked before a segment start. The last one is left out. */
  ghost function RecoverTargets(row: P.Sample): (r: seq<int>)
    requires |row.tokens| >= 2
    ensures |r| == |row.tokens| - 2
    ensures forall i ::
        0 <= i < |r|
        ==> r[i] == if StartsSegment(row.segmentLengths, i + 1) then MASKED else row.tokens[i + 1]
  {
    seq(|row.tokens| - 2, i requires 0 <= i < |row.tokens| - 2 =>
          if StartsSegment(row.segmentLengths, i + 1) then MASKED else row.tokens[i + 1])
  }

  lemma {:induction false} RecoverPrefix(ids: seq<int>, k: nat)
    requires ids != [] && k <= |SegmentLengths(ids)|
    ensures |RecoverPositions(SegmentLengths(ids)[..k])| == Bounds(ids)[k]
    ensures forall p ::
        0 <= p < Bounds(ids)[k]
        ==> p < |ids| && RecoverPositions(SegmentLengths(ids)[..k])[p] == PositionOf(ids, p)
  {
    BoundsIncrease(ids);
    if k > 0 {
      var ls := SegmentLengths(ids);
      RecoverPrefix(ids, k - 1);
      DiffAt(Bounds(ids), k - 1);
      assert ls[..k][..k - 1] == ls[..k - 1];
      forall p | Bounds(ids)[k - 1] <= p < Bounds(ids)[k]
        ensures p < |ids| && PositionOf(ids, p) == p - Bounds(ids)[k - 1]
      {
        InSegment(ids, k - 1, p);
      }
    }
  }

  lemma {:induction false} PositionsRecovered(ids: seq<int>)
    requires ids != []
    ensures RecoverPositions(SegmentLengths(ids)) == PositionsOf(ids)
  {
    var ls := SegmentLengths(ids);
    RecoverPrefix(ids, |ls|);
    BoundsIncrease(ids);
    assert ls[..|ls|] == ls;
  }

  /** From the compact row alone the inputs, the positions and every target but the last are recovered
      exactly. */
  lemma {:induction false} CompactKeeps(w: P.Window)
    requires WindowOk(w)
    ensures var row, full, c := w.Label(), Expand(w), |w.tokens| - 1;
            && row.tokens[..c] == full.inputs
            && row.segmentLengths == full.segmentLengths
            && RecoverPositions(row.segmentLengths) == full.positions
            && RecoverTargets(row) == full.targets[..c - 1]
  {
    var row, full, c := w.Label(), Expand(w), |w.tokens| - 1;
    var ids := w.docIds[..c];
    PositionsRecovered(ids);
    forall i | 0 <= i < c - 1
      ensures RecoverTargets(row)[i] == full.targets[i]
    {
      SegmentsStartAtChanges(ids, i + 1);
    }
  }

  /** A target that is not the last is masked exactly when its position is the last of a segment that
      is not the final one. */
  lemma {:induction false} MaskedExactly(w: P.Window, i: nat)
    requires WindowOk(w) && i + 2 < |w.tokens| && forall j :: 0 <= j < |w.tokens| ==> w.tokens[j] >= 0
    ensures Expand(w).targets[i] == MASKED <==> EndsSegment(w.Label().segmentLengths, i)
  {
    var ids := w.docIds[..|w.tokens| - 1];
    SegmentsStartAtChanges(ids, i + 1);
    EndsBeforeStart(ids, i);
  }

  /** Position `i` is the last of segment `k`, and another segment follows. */
  ghost predicate EndsSegment(lengths: seq<int>, i: int) {
    exists k: nat :: k + 1 < |lengths| && SegmentStart(lengths, k) + lengths[k] == i + 1
  }

  lemma {:induction false} EndsBeforeStart(ids: seq<int>, i: nat)
    requires ids != []
    ensures EndsSegment(SegmentLengths(ids), i) <==> StartsSegment(SegmentLengths(ids), i + 1)
  {
    var ls := SegmentLengths(ids);
    if StartsSegment(ls, i + 1) {
      var k: nat :| 0 < k < |ls| && SegmentStart(ls, k) == i + 1;
      NextStart(ls, k - 1);
      assert SegmentStart(ls, k - 1) + ls[k - 1] == i + 1;
    }
    if EndsSegment(ls, i) {
      var k: nat :| k + 1 < |ls| && SegmentStart(ls, k) + ls[k] == i + 1;
      NextStart(ls, k);
      assert 0 < k + 1 < |ls| && SegmentStart(ls, k + 1) == i + 1;
    }
  }

  lemma {:induction false} NextStart(ls: seq<int>, k: nat)
    requires k < |ls|
    ensures SegmentStart(ls, k + 1) == SegmentStart(ls, k) + ls[k]
  {
    assert ls[..k + 1] == ls[..k] + [ls[k]];
    SumSnoc(ls[..k], ls[k]);
  }

  /** Every window whose last token is not the mask value has a partner with the same compact row and
      another last target: the document of the last token is what the row does not store. */
  lemma {:induction false} LastTargetOpen(w: P.Window) returns (v: P.Window)
    requires WindowOk(w) && w.tokens[|w.tokens| - 1] != MASKED
    ensures WindowOk(v) && v.Label() == w.Label()
    ensures |Expand(v).targets| == |Expand(w).targets| == |w.tokens| - 1
    ensures Expand(v).targets[|w.tokens| - 2] != Expand(w).targets[|w.tokens| - 2]
  {
    var c := |w.tokens| - 1;
    var other := if w.docIds[c] == w.docIds[c - 1] then w.docIds[c] + 1 else w.docIds[c - 1];
    v := P.Window(w.tokens, w.docIds[c := other]);
    assert v.docIds[..c] == w.docIds[..c];
  }

  /** The compact row determines target `i`: all windows with that row agree in it. */
  ghost predicate Determined(w: P.Window, i: nat)
    requires WindowOk(w) && i + 1 < |w.tokens|
  {
    forall v: P.Window :: WindowOk(v) && v.Label() == w.Label() ==> SameTarget(v, w, i)
  }

  ghost predicate SameTarget(v: P.Window, w: P.Window, i: nat)
    requires WindowOk(v) && WindowOk(w)
  {
    i < |Expand(v).targets| && i < |Expand(w).targets| && Expand(v).targets[i] == Expand(w).targets[i]
  }

  /** Exactly which targets the compact row determines: all but the last, and the last one only where its
      token is the mask value itself. */
  lemma {:induction false} DeterminedExact(w: P.Window, i: nat)
    requires WindowOk(w) && i + 1 < |w.tokens|
    ensures Determined(w, i) <==> i + 2 < |w.tokens| || w.tokens[|w.tokens| - 1] == MASKED
  {
    var n := |w.tokens|;
    if i + 2 < n {
      forall v: P.Window | WindowOk(v) && v.Label() == w.Label()
        ensures SameTarget(v, w, i)
      {
        KeptTarget(v, i);
        KeptTarget(w, i);
      }
    } else if w.tokens[n - 1] != MASKED {
      var v := LastTargetOpen(w);
      assert !SameTarget(v, w, i);
    }
  }

  lemma {:induction false} KeptTarget(w: P.Window, i: nat)
    requires WindowOk(w) && i + 2 < |w.tokens|
    ensures Expand(w).targets[i] == RecoverTargets(w.Label())[i]
  {
    CompactKeeps(w);
    assert Expand(w).targets[..|w.tokens| - 2][i] == Expand(w).targets[i];
  }

  /** One instance: two windows with the same compact row differ in their last target. */
  lemma {:induction false} LastTargetLost()
    ensures var a, b := P.Window([5, 6, 7], [0, 0, 0]), P.Window([5, 6, 7], [0, 0, 1]);
            a.Label() == b.Label() && Expand(a).targets == [6, 7] && Expand(b).targets == [6, MASKED]
  {
    var a, b := P.Window([5, 6, 7], [0, 0, 0]), P.Window([5, 6, 7], [0, 0, 1]);
    assert a.docIds[..2] == b.docIds[..2];
    assert Expand(a).targets[0] == 6 && Expand(a).targets[1] == 7;
    assert Expand(b).targets[0] == 6 && Expand(b).targets[1] == MASKED;
  }

  // ---------- whole corpora ----------

  /** All windows of the stream. */
  function AllWindows(docs: seq<seq<int>>, c: nat): (ws: seq<P.Window>)
    requires c > 0
    ensures |ws| == P.Windows(|Flatten(docs)|, c)
  {
    P.Cut(Flatten(docs), P.Owners(docs), c, 0, P.Windows(|Flatten(docs)|, c))
  }

  lemma {:induction false} WindowIs(docs: seq<seq<int>>, c: nat, i: nat, start: nat)
    requires c > 0 && i < P.Windows(|Flatten(docs)|, c) && start == P.RowStart(c, i)
    ensures start + c + 1 <= |Flatten(docs)|
    ensures AllWindows(docs, c)[i]
        == P.Window(Flatten(docs)[start..start + c + 1], P.Owners(docs)[start..start + c + 1])
    ensures WindowOk(AllWindows(docs, c)[i])
        && AllWindows(docs, c)[i] == P.WindowAt(Flatten(docs), P.Owners(docs), c, i)
  {
    P.WindowsExact(|Flatten(docs)|, c, i);
    P.CutAt(Flatten(docs), P.Owners(docs), c, 0, P.Windows(|Flatten(docs)|, c), i);
  }

  lemma {:induction false} NextWindow(docs: seq<seq<int>>, c: nat, i: nat, start: nat)
    requires c > 0 && start == P.RowStart(c, i) && start + c + 1 <= |Flatten(docs)|
    ensures i < P.Windows(|Flatten(docs)|, c)
    ensures var w := P.Window(Flatten(docs)[start..start + c + 1], P.Owners(docs)[start..start + c + 1]);
            WindowOk(w) && w == AllWindows(docs, c)[i] == P.WindowAt(Flatten(docs), P.Owners(docs), c, i)
  {
    P.WindowsExact(|Flatten(docs)|, c, i);
    WindowIs(docs, c, i, start);
  }

  /** `out` are the expanded samples of the first windows. */
  ghost predicate ExpandedUpTo(out: seq<Expanded>, docs: seq<seq<int>>, c: nat)
    requires c > 0
  {
    && |out| <= |AllWindows(docs, c)|
    && forall i :: 0 <= i < |out| ==> IsExpanded(out[i], AllWindows(docs, c)[i])
  }

  ghost predicate IsExpanded(r: Expanded, w: P.Window) { WindowOk(w) && r == Expand(w) }

  lemma {:induction false} OneMore(out: seq<Expanded>, docs: seq<seq<int>>, c: nat, r: Expanded)
    requires c > 0 && ExpandedUpTo(out, docs, c) && |out| < |AllWindows(docs, c)|
        && IsExpanded(r, AllWindows(docs, c)[|out|])
    ensures ExpandedUpTo(out + [r], docs, c)
  {
  }

  /** `iter_lm_samples` over the sequences of a JSONL corpus: one expanded sample per window; `None`
      stands for its `ValueError`. */
  method IterLmSamples(docs: seq<seq<int>>, c: nat) returns (r: Option<seq<Expanded>>)
    ensures r.None? <==> c < 2
    ensures r.Some? ==> |r.value| == P.Windows(|Flatten(docs)|, c) && ExpandedUpTo(r.value, docs, c)
  {
    if c + 1 < 3 {
      return None;
    }
    var stream, owners := Flatten(docs), P.Owners(docs);
    var out: seq<Expanded> := [];
    var start := 0;
    while start + c + 1 <= |stream|
      invariant start == P.RowStart(c, |out|) && ExpandedUpTo(out, docs, c)
      decreases |stream| - start
    {
      NextWindow(docs, c, |out|, start);
      var sample := ExpandRow(P.Window(stream[start..start + c + 1], owners[start..start + c + 1]));
      OneMore(out, docs, c, sample);
      out := out + [sample];
      start := start + c;
    }
    P.WindowsExact(|stream|, c, |out|);
    r := Some(out);
  }

  /** What `u16_tensor` accepts. */
  predicate FitsU16(row: P.Sample) {
    forall k :: 0 <= k < |row.tokens| ==> 0 <= row.tokens[k] <= 0xFFFF
  }

  ghost predicate AllFitU16(rows: seq<P.Sample>) {
    forall i :: 0 <= i < |rows| ==> FitsU16(rows[i])
  }

  /** All compact rows of the stream. */
  ghost function AllCompact(docs: seq<seq<int>>, c: nat): (rows: seq<P.Sample>)
    requires c > 0
    ensures |rows| == P.Windows(|Flatten(docs)|, c)
  {
    P.Rows(docs, c, 0, P.Windows(|Flatten(docs)|, c))
  }

  lemma {:induction false} FitsExactly(rows: seq<P.Sample>)
    ensures AllFitU16(rows) <==>
            forall i, j :: 0 <= i < |rows| && 0 <= j < |rows[i].tokens| ==> 0 <= rows[i].tokens[j] < 0x1_0000
  {
    assert forall i :: 0 <= i < |rows| ==>
        (FitsU16(rows[i]) <==> forall j :: 0 <= j < |rows[i].tokens| ==> 0 <= rows[i].tokens[j] < 0x1_0000);
  }

  /** `iter_compact_lm_samples`: the compact samples of the same windows; it raises for a context below 2
      and for a token of a row that does not fit 16 bits. */
  method IterCompactLmSamples(docs: seq<seq<int>>, c: nat) returns (r: Option<seq<P.Sample>>)
    ensures r.Some? <==>
            c >= 2 && forall i, j :: 0 <= i < |AllCompact(docs, c)| && 0 <= j < |AllCompact(docs, c)[i].tokens| ==>
              0 <= AllCompact(docs, c)[i].tokens[j] < 0x1_0000
    ensures r.Some? ==> r.value == AllCompact(docs, c)
  {
    if c + 1 < 3 {
      return None;
    }
    FitsExactly(AllCompact(docs, c));
    var stream, owners := Flatten(docs), P.Owners(docs);
    var out: seq<P.Sample> := [];
    var start := 0;
    NoRows(docs, c);
    while start + c + 1 <= |stream|
      invariant RowsBefore(out, docs, c, start) && AllFitU16(out)
      decreases |stream| - start
    {
      var ok;
      out, ok := AppendRow(docs, c, stream, owners, start, out);
      if !ok {
        return None;
      }
      start := start + c;
    }
    EveryRow(out, docs, c, start);
    r := Some(out);
  }

  /** `out` are the rows that start before `start`, where the next one starts. */
  ghost predicate RowsBefore(out: seq<P.Sample>, docs: seq<seq<int>>, c: nat, start: nat) {
    c > 0 && start == P.RowStart(c, |out|) && RowsUpTo(out, docs, c)
  }

  lemma {:induction false} NoRows(docs: seq<seq<int>>, c: nat)
    requires c > 0
    ensures RowsBefore([], docs, c, 0)
  {
  }

  lemma {:induction false} EveryRow(out: seq<P.Sample>, docs: seq<seq<int>>, c: nat, start: nat)
    requires RowsBefore(out, docs, c, start) && start + c + 1 > |Flatten(docs)|
    ensures out == P.Rows(docs, c, 0, P.Windows(|Flatten(docs)|, c))
  {
    P.WindowsExact(|Flatten(docs)|, c, |out|);
  }

  /** One turn of the loop of `iter_compact_lm_samples`; false stands for the `ValueError`. */
  method AppendRow(docs: seq<seq<int>>, c: nat, stream: seq<int>, owners: seq<int>, start: nat, out: seq<P.Sample>)
    returns (r: seq<P.Sample>, ok: bool)
    requires stream == Flatten(docs) && owners == P.Owners(docs)
    requires RowsBefore(out, docs, c, start) && start + c + 1 <= |stream| && AllFitU16(out)
    ensures ok ==> RowsBefore(r, docs, c, start + c) && AllFitU16(r)
    ensures !ok ==> !AllFitU16(AllCompact(docs, c))
  {
    NextWindow(docs, c, |out|, start);
    var sample := CompactRow(P.Window(stream[start..start + c + 1], owners[start..start + c + 1]));
    RowOneMore(docs, c, out, sample);
    r := out + [sample];
    ok := FitsU16(sample);
    if !ok {
      RowsArePrefix(docs, c, |r|);
      assert r[|out|] == sample;
    }
  }

  /** Fewer rows are the first rows. */
  lemma {:induction false} RowsArePrefix(docs: seq<seq<int>>, c: nat, n: nat)
    requires c > 0 && n <= P.Windows(|Flatten(docs)|, c)
    ensures forall i :: 0 <= i < n ==> P.Rows(docs, c, 0, n)[i] == AllCompact(docs, c)[i]
  {
    var m := P.Windows(|Flatten(docs)|, c);
    forall i | 0 <= i < n
      ensures P.Rows(docs, c, 0, n)[i] == AllCompact(docs, c)[i]
    {
      P.RowAt(docs, c, 0, n, i);
      P.RowAt(docs, c, 0, m, i);
    }
  }

  /** The compact sample of one window. */
  method CompactRow(w: P.Window) returns (r: P.Sample)
    requires WindowOk(w)
    ensures r == w.Label()
  {
    var lengths, positions := SegmentLengthsAndPositions(w.docIds[..|w.docIds| - 1]);
    r := P.Sample(w.tokens, lengths);
  }

  ghost predicate RowsUpTo(out: seq<P.Sample>, docs: seq<seq<int>>, c: nat)
    requires c > 0
  {
    |out| <= P.Windows(|Flatten(docs)|, c) && out == P.Rows(docs, c, 0, |out|)
  }

  lemma {:induction false} RowOneMore(docs: seq<seq<int>>, c: nat, out: seq<P.Sample>, row: P.Sample)
    requires c > 0 && RowsUpTo(out, docs, c) && |out| < P.Windows(|Flatten(docs)|, c)
    requires row == P.WindowAt(Flatten(docs), P.Owners(docs), c, |out|).Label()
    ensures RowsUpTo(out + [row], docs, c)
  {
    RowSnoc(docs, c, |out| + 1);
  }

  lemma {:induction false} RowSnoc(docs: seq<seq<int>>, c: nat, n: nat)
    requires c > 0 && 0 < n <= P.Windows(|Flatten(docs)|, c)
    ensures P.Rows(docs, c, 0, n)
        == P.Rows(docs, c, 0, n - 1) + [P.WindowAt(Flatten(docs), P.Owners(docs), c, n - 1).Label()]
  {
    var ws := P.Cut(Flatten(docs), P.Owners(docs), c, 0, n);
    assert ws[..n - 1] == P.Cut(Flatten(docs), P.Owners(docs), c, 0, n - 1);
  }
}
