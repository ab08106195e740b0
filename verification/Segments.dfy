/** Run lengths of a document-id vector (`compute_segment_lengths`). */
module Segments {
  import opened Seqs

  /** A document boundary lies between `p - 1` and `p`. */
  predicate ChangesAt(ids: seq<int>, p: int)
    requires 0 < p < |ids|
  {
    ids[p] != ids[p - 1]
  }

  /** Positions at or after `i` whose id differs from the id just before. */
  function Changes(ids: seq<int>, i: nat): (r: seq<nat>)
    requires i >= 1
    decreases |ids| - i
  {
    if i >= |ids| then []
    else if ChangesAt(ids, i) then [i] + Changes(ids, i + 1)
    else Changes(ids, i + 1)
  }

  function Bounds(ids: seq<int>): (r: seq<int>)
    requires ids != []
  {
    [0] + Changes(ids, 1) + [|ids|]
  }

  function Diff(b: seq<int>): (r: seq<int>)
    requires b != []
    ensures |r| == |b| - 1
  {
    if |b| == 1 then [] else Diff(b[..|b| - 1]) + [b[|b| - 1] - b[|b| - 2]]
  }

  function SegmentLengths(ids: seq<int>): (r: seq<int>)
    requires ids != []
  {
    Diff(Bounds(ids))
  }

  /** Start of segment `k`: the sum of the lengths before it. */
  function SegmentStart(lengths: seq<int>, k: nat): int
    requires k <= |lengths|
  {
    Sum(lengths[..k])
  }

  /** Position `p` is the first position of a segment other than the first. */
  ghost predicate StartsSegment(lengths: seq<int>, p: int) {
    exists k: nat :: 0 < k < |lengths| && SegmentStart(lengths, k) == p
  }

  lemma {:induction false} ChangesExact(ids: seq<int>, i: nat)
    requires 1 <= i <= |ids|
    ensures forall k :: 0 <= k < |Changes(ids, i)| ==> i <= Changes(ids, i)[k] < |ids|
    ensures forall j, k :: 0 <= j < k < |Changes(ids, i)| ==> Changes(ids, i)[j] < Changes(ids, i)[k]
    ensures forall p: nat :: i <= p < |ids| ==> (p in Changes(ids, i) <==> ChangesAt(ids, p))
    decreases |ids| - i
  {
    if i < |ids| {
      ChangesExact(ids, i + 1);
    }
  }

  lemma {:induction false} DiffAt(b: seq<int>, i: nat)
    requires i + 1 < |b|
    ensures Diff(b)[i] == b[i + 1] - b[i]
  {
    if i + 2 < |b| {
      DiffAt(b[..|b| - 1], i);
    }
  }

  /** Summing differences telescopes. */
  lemma {:induction false} SumOfDiff(b: seq<int>, k: nat)
    requires k < |b|
    ensures Sum(Diff(b)[..k]) == b[k] - b[0]
  {
    if k > 0 {
      SumOfDiff(b, k - 1);
      DiffAt(b, k - 1);
      assert Diff(b)[..k] == Diff(b)[..k - 1] + [Diff(b)[k - 1]];
      SumSnoc(Diff(b)[..k - 1], Diff(b)[k - 1]);
    }
  }

  lemma {:induction false} SegmentStartIsBound(ids: seq<int>, k: nat)
    requires ids != [] && k <= |SegmentLengths(ids)|
    ensures SegmentStart(SegmentLengths(ids), k) == Bounds(ids)[k]
  {
    SumOfDiff(Bounds(ids), k);
  }

  /** All lengths are positive and together they cover the row exactly. */
  lemma {:induction false} SegmentLengthsCover(ids: seq<int>)
    requires ids != []
    ensures forall k :: 0 <= k < |SegmentLengths(ids)| ==> SegmentLengths(ids)[k] > 0
    ensures Sum(SegmentLengths(ids)) == |ids|
  {
    var b, ls := Bounds(ids), SegmentLengths(ids);
    ChangesExact(ids, 1);
    forall k: nat | k < |ls|
      ensures ls[k] > 0
    {
      DiffAt(b, k);
    }
    SumOfDiff(b, |ls|);
    assert ls[..|ls|] == ls;
  }

  /** A position starts a segment exactly when the document changes there. */
  lemma {:induction false} SegmentsStartAtChanges(ids: seq<int>, p: nat)
    requires 0 < p < |ids|
    ensures ChangesAt(ids, p) <==> StartsSegment(SegmentLengths(ids), p)
  {
    var cs, b, ls := Changes(ids, 1), Bounds(ids), SegmentLengths(ids);
    ChangesExact(ids, 1);
    assert |ls| == |cs| + 1;
    assert forall j: nat :: j < |cs| ==> b[j + 1] == cs[j];
    if ChangesAt(ids, p) {
      var j :| 0 <= j < |cs| && cs[j] == p;
      SegmentStartIsBound(ids, j + 1);
    }
    if StartsSegment(ls, p) {
      var k: nat :| 0 < k < |ls| && SegmentStart(ls, k) == p;
      SegmentStartIsBound(ids, k);
      assert cs[k - 1] == p;
    }
  }

  /** Two numberings that change at the same places. */
  ghost predicate SamePattern(a: seq<int>, b: seq<int>) {
    |a| == |b| && forall i :: 0 < i < |a| ==> (ChangesAt(a, i) <==> ChangesAt(b, i))
  }

  lemma {:induction false} ChangesSamePattern(a: seq<int>, b: seq<int>, i: nat)
    requires SamePattern(a, b) && i >= 1
    ensures Changes(a, i) == Changes(b, i)
    decreases |a| - i
  {
    if i < |a| {
      ChangesSamePattern(a, b, i + 1);
    }
  }

  /** Lengths depend only on where the numbering changes, not on the numbers used. */
  lemma {:induction false} SegmentLengthsSamePattern(a: seq<int>, b: seq<int>)
    requires SamePattern(a, b) && a != []
    ensures SegmentLengths(a) == SegmentLengths(b)
  {
    ChangesSamePattern(a, b, 1);
  }

  /** With no two adjacent changes, at most every second position changes. */
  lemma {:induction false} ChangesBound(ids: seq<int>, i: nat)
    requires i >= 1
    requires forall p :: 1 <= p < |ids| - 1 && ChangesAt(ids, p) ==> ids[p + 1] == ids[p]
    ensures i <= |ids| ==> 2 * |Changes(ids, i)| <= |ids| - i + 1
    ensures i > |ids| ==> Changes(ids, i) == []
    decreases |ids| - i
  {
    if i < |ids| {
      ChangesBound(ids, i + 1);
      if ChangesAt(ids, i) && i + 1 < |ids| {
        assert ids[i + 1] == ids[i];
        ChangesBound(ids, i + 2);
        assert Changes(ids, i + 1) == Changes(ids, i + 2);
      }
    }
  }
}
