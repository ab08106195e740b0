/** What a refused record does to the split: it closes the shard that was open. */
module GddsRefusal {
  import opened Arith
  import opened Seqs
  import opened Bytes
  import opened GddsRecord
  import opened GddsShard
  import opened GddsSplit

  /** Long enough, and too large for any shard. */
  predicate TooBig(dataOffset: nat, limit: Option<nat>, r: Data) {
    |r| >= RECORD_HEADER_SIZE && !Fits(dataOffset, limit, [r])
  }

  /** Record `i` is too large and closes an open shard; `j` is the next acceptable record, and it would
      have fitted there. */
  ghost predicate ClosesTooSoon(dataOffset: nat, limit: Option<nat>, rs: seq<Data>, i: nat, j: nat) {
    && i < j < |rs|
    && TooBig(dataOffset, limit, rs[i]) && Acceptable(dataOffset, limit, rs[j])
    && NoneBetween(dataOffset, limit, rs, i, j)
    && var open := Run(dataOffset, limit, EMPTY, rs[..i]).current;
       open != [] && Fits(dataOffset, limit, open + [rs[j]])
  }

  ghost predicate NoneBetween(dataOffset: nat, limit: Option<nat>, rs: seq<Data>, i: nat, j: nat)
    requires j <= |rs|
  {
    forall k :: i < k < j ==> !Acceptable(dataOffset, limit, rs[k])
  }

  ghost predicate SomeClosesTooSoon(dataOffset: nat, limit: Option<nat>, rs: seq<Data>) {
    exists i: nat, j: nat :: ClosesTooSoon(dataOffset, limit, rs, i, j)
  }

  // ---------- two runs side by side ----------

  /** The same shards so far; the run with refusals may have closed its last one already. */
  ghost predicate Synced(s: State, t: State) {
    s == t || Closed(s, t)
  }

  ghost predicate Closed(s: State, t: State) {
    s.current == [] && t.current != [] && s.done == t.done + [t.current]
  }

  /** Some shard is finished in one run and longer in the other. */
  ghost predicate Apart(s: State, t: State) {
    exists k :: 0 <= k < |s.done| && k < |t.Shards()| && |s.done[k]| < |t.Shards()[k]|
  }

  lemma {:induction false} ApartDiffer(s: State, t: State)
    requires Apart(s, t)
    ensures s.Shards() != t.Shards()
  {
    var k :| 0 <= k < |s.done| && k < |t.Shards()| && |s.done[k]| < |t.Shards()[k]|;
    assert s.Shards()[k] == s.done[k];
  }

  /** Finished shards stay, and the open one only grows. */
  lemma {:induction false} StepGrows(dataOffset: nat, limit: Option<nat>, st: State, r: Data)
    ensures var next := Step(dataOffset, limit, st, r).0;
            && |st.done| <= |next.done| && next.done[..|st.done|] == st.done
            && |st.Shards()| <= |next.Shards()|
            && forall k :: 0 <= k < |st.Shards()| ==> |st.Shards()[k]| <= |next.Shards()[k]|
  {
  }

  lemma {:induction false} ApartStays(dataOffset: nat, limit: Option<nat>, s: State, t: State, r: Data)
    requires Apart(s, t)
    ensures Apart(Step(dataOffset, limit, s, r).0, Step(dataOffset, limit, t, r).0)
    ensures Apart(Step(dataOffset, limit, s, r).0, t)
  {
    var k :| 0 <= k < |s.done| && k < |t.Shards()| && |s.done[k]| < |t.Shards()[k]|;
    StepGrows(dataOffset, limit, s, r);
    StepGrows(dataOffset, limit, t, r);
    var s', t' := Step(dataOffset, limit, s, r).0, Step(dataOffset, limit, t, r).0;
    assert s'.done[k] == s'.done[..|s.done|][k] == s.done[k];
    assert |s'.done[k]| < |t'.Shards()[k]|;
  }

  /** An acceptable record joins the shard that one run has closed and the other has not. */
  lemma {:induction false} JoinsClosed(dataOffset: nat, limit: Option<nat>, s: State, t: State, r: Data)
    requires Closed(s, t) && Acceptable(dataOffset, limit, r)
    ensures var s', t' := Step(dataOffset, limit, s, r).0, Step(dataOffset, limit, t, r).0;
            if Fits(dataOffset, limit, t.current + [r]) then Apart(s', t') else s' == t'
  {
    var s', t' := Step(dataOffset, limit, s, r).0, Step(dataOffset, limit, t, r).0;
    if Fits(dataOffset, limit, t.current + [r]) {
      var k := |t.done|;
      assert s'.done[k] == t.current && t'.Shards()[k] == t.current + [r];
    }
  }

  /** A refused record leaves the runs in step. */
  lemma {:induction false} RefusedKeeps(dataOffset: nat, limit: Option<nat>, s: State, t: State, r: Data)
    requires Synced(s, t) && !Acceptable(dataOffset, limit, r)
    ensures var s' := Step(dataOffset, limit, s, r).0;
            && Synced(s', t)
            && (Closed(s', t) <==> Closed(s, t) || (s.current != [] && TooBig(dataOffset, limit, r)))
  {
    if s.current != [] && Fits(dataOffset, limit, s.current + [r]) {
      LastFits(dataOffset, limit, s.current, r);
    }
  }

  // ---------- who closed the shard ----------

  /** Record `i` closed the shard, and nothing acceptable came since. */
  ghost predicate ClosedBy(dataOffset: nat, limit: Option<nat>, rs: seq<Data>, i: nat, open: seq<Data>) {
    && i < |rs| && TooBig(dataOffset, limit, rs[i]) && open != []
    && NoneBetween(dataOffset, limit, rs, i, |rs|)
    && Run(dataOffset, limit, EMPTY, rs[..i]).current == open
  }

  function Kept(dataOffset: nat, limit: Option<nat>, rs: seq<Data>): State {
    Run(dataOffset, limit, EMPTY, Accepted(dataOffset, limit, rs))
  }

  lemma {:induction false} KeptStep(dataOffset: nat, limit: Option<nat>, rs: seq<Data>, r: Data)
    ensures Kept(dataOffset, limit, rs + [r]) ==
            if Acceptable(dataOffset, limit, r) then Step(dataOffset, limit, Kept(dataOffset, limit, rs), r).0
            else Kept(dataOffset, limit, rs)
    ensures Run(dataOffset, limit, EMPTY, rs + [r]) == Step(dataOffset, limit, Run(dataOffset, limit, EMPTY, rs), r).0
  {
    assert (rs + [r])[..|rs|] == rs;
    var a := Accepted(dataOffset, limit, rs);
    assert (a + [r])[..|a|] == a;
  }

  /** A too-early closing of the longer list is one of the shorter list, or its second record is the last. */
  lemma {:induction false} EarlierClosing(dataOffset: nat, limit: Option<nat>, rs: seq<Data>, r: Data, i: nat, j: nat)
    requires j < |rs|
    ensures ClosesTooSoon(dataOffset, limit, rs + [r], i, j) <==> ClosesTooSoon(dataOffset, limit, rs, i, j)
  {
    if i < j {
      assert (rs + [r])[..i] == rs[..i];
      assert forall k :: 0 <= k < |rs| ==> (rs + [r])[k] == rs[k];
    }
  }

  lemma {:induction false} LastClosing(dataOffset: nat, limit: Option<nat>, rs: seq<Data>, r: Data, i: nat)
    ensures ClosesTooSoon(dataOffset, limit, rs + [r], i, |rs|) <==>
            Acceptable(dataOffset, limit, r) && i < |rs| && exists open ::
              ClosedBy(dataOffset, limit, rs, i, open) && Fits(dataOffset, limit, open + [r])
  {
    var all := rs + [r];
    if i < |rs| {
      var open := Run(dataOffset, limit, EMPTY, rs[..i]).current;
      assert all[..i] == rs[..i] && all[i] == rs[i] && all[|rs|] == r;
      assert NoneBetween(dataOffset, limit, all, i, |rs|) <==> NoneBetween(dataOffset, limit, rs, i, |rs|) by {
        assert forall k :: 0 <= k < |rs| ==> all[k] == rs[k];
      }
      if ClosesTooSoon(dataOffset, limit, all, i, |rs|) {
        assert ClosedBy(dataOffset, limit, rs, i, open) && Fits(dataOffset, limit, open + [r]);
      }
    }
  }

  lemma {:induction false} ClosedByShrinks(dataOffset: nat, limit: Option<nat>, rs: seq<Data>, r: Data, i: nat,
        open: seq<Data>)
    requires i < |rs|
    ensures ClosedBy(dataOffset, limit, rs + [r], i, open) <==>
            ClosedBy(dataOffset, limit, rs, i, open) && !Acceptable(dataOffset, limit, r)
  {
    var all := rs + [r];
    assert all[..i] == rs[..i] && all[i] == rs[i] && all[|rs|] == r;
    assert forall k :: 0 <= k < |rs| ==> all[k] == rs[k];
  }

  lemma {:induction false} ClosedByLast(dataOffset: nat, limit: Option<nat>, rs: seq<Data>, r: Data, open: seq<Data>)
    ensures ClosedBy(dataOffset, limit, rs + [r], |rs|, open) <==>
            TooBig(dataOffset, limit, r) && open != [] && Run(dataOffset, limit, EMPTY, rs).current == open
  {
    assert (rs + [r])[..|rs|] == rs;
  }

  /** The runs are in step, and a shard is closed in one of them only by a record that did it. */
  ghost predicate InStep(dataOffset: nat, limit: Option<nat>, rs: seq<Data>) {
    var s, t := Run(dataOffset, limit, EMPTY, rs), Kept(dataOffset, limit, rs);
    && Synced(s, t)
    && (Closed(s, t) ==> exists i: nat :: ClosedBy(dataOffset, limit, rs, i, t.current))
    && forall i: nat, open :: ClosedBy(dataOffset, limit, rs, i, open) ==> Closed(s, t) && t.current == open
  }

  lemma {:induction false} RefusedInStep(dataOffset: nat, limit: Option<nat>, rs: seq<Data>, r: Data)
    requires InStep(dataOffset, limit, rs) && !Acceptable(dataOffset, limit, r)
    ensures InStep(dataOffset, limit, rs + [r])
  {
    var s, t := Run(dataOffset, limit, EMPTY, rs), Kept(dataOffset, limit, rs);
    KeptStep(dataOffset, limit, rs, r);
    RefusedKeeps(dataOffset, limit, s, t, r);
    var s' := Run(dataOffset, limit, EMPTY, rs + [r]);
    if Closed(s, t) {
      var i: nat :| ClosedBy(dataOffset, limit, rs, i, t.current);
      ClosedByShrinks(dataOffset, limit, rs, r, i, t.current);
    } else if Closed(s', t) {
      ClosedByLast(dataOffset, limit, rs, r, t.current);
    }
    forall i: nat, open | ClosedBy(dataOffset, limit, rs + [r], i, open)
      ensures Closed(s', t) && t.current == open
    {
      if i < |rs| {
        ClosedByShrinks(dataOffset, limit, rs, r, i, open);
      } else {
        ClosedByLast(dataOffset, limit, rs, r, open);
      }
    }
  }

  lemma {:induction false} AcceptedInStep(dataOffset: nat, limit: Option<nat>, rs: seq<Data>, r: Data)
    requires InStep(dataOffset, limit, rs) && Acceptable(dataOffset, limit, r)
    ensures if exists i: nat :: ClosesTooSoon(dataOffset, limit, rs + [r], i, |rs|)
            then Apart(Run(dataOffset, limit, EMPTY, rs + [r]), Kept(dataOffset, limit, rs + [r]))
            else InStep(dataOffset, limit, rs + [r])
  {
    var s, t := Run(dataOffset, limit, EMPTY, rs), Kept(dataOffset, limit, rs);
    KeptStep(dataOffset, limit, rs, r);
    if i: nat :| ClosesTooSoon(dataOffset, limit, rs + [r], i, |rs|) {
      LastClosing(dataOffset, limit, rs, r, i);
      JoinsClosed(dataOffset, limit, s, t, r);
    } else {
      if Closed(s, t) {
        var i: nat :| ClosedBy(dataOffset, limit, rs, i, t.current);
        LastClosing(dataOffset, limit, rs, r, i);
        JoinsClosed(dataOffset, limit, s, t, r);
      }
      forall i: nat, open | ClosedBy(dataOffset, limit, rs + [r], i, open)
        ensures false
      {
        if i < |rs| {
          ClosedByShrinks(dataOffset, limit, rs, r, i, open);
        } else {
          ClosedByLast(dataOffset, limit, rs, r, open);
        }
      }
    }
  }

  /** While no shard was closed too soon the runs are in step; after that they are apart for good. */
  lemma {:induction false} SideBySide(dataOffset: nat, limit: Option<nat>, rs: seq<Data>)
    ensures if SomeClosesTooSoon(dataOffset, limit, rs)
            then Apart(Run(dataOffset, limit, EMPTY, rs), Kept(dataOffset, limit, rs))
            else InStep(dataOffset, limit, rs)
  {
    if rs != [] {
      var init, r := rs[..|rs| - 1], rs[|rs| - 1];
      assert init + [r] == rs;
      SideBySide(dataOffset, limit, init);
      MoreClosings(dataOffset, limit, init, r);
      if SomeClosesTooSoon(dataOffset, limit, init) {
        KeptStep(dataOffset, limit, init, r);
        ApartStays(dataOffset, limit, Run(dataOffset, limit, EMPTY, init), Kept(dataOffset, limit, init), r);
      } else if Acceptable(dataOffset, limit, r) {
        AcceptedInStep(dataOffset, limit, init, r);
      } else {
        RefusedInStep(dataOffset, limit, init, r);
      }
    }
  }

  lemma {:induction false} MoreClosings(dataOffset: nat, limit: Option<nat>, rs: seq<Data>, r: Data)
    ensures SomeClosesTooSoon(dataOffset, limit, rs + [r]) <==>
            || SomeClosesTooSoon(dataOffset, limit, rs)
            || exists i: nat :: ClosesTooSoon(dataOffset, limit, rs + [r], i, |rs|)
  {
    forall i: nat, j: nat | j < |rs|
      ensures ClosesTooSoon(dataOffset, limit, rs + [r], i, j) <==> ClosesTooSoon(dataOffset, limit, rs, i, j)
    {
      EarlierClosing(dataOffset, limit, rs, r, i, j);
    }
  }

  /** The refused records change the shards of the accepted ones exactly when one of them meets an open
      shard that still has room for the next acceptable record. */
  lemma {:induction false} RefusalExact(dataOffset: nat, limit: Option<nat>, rs: seq<Data>)
    ensures Run(dataOffset, limit, EMPTY, rs).Shards() == Kept(dataOffset, limit, rs).Shards()
            <==> !SomeClosesTooSoon(dataOffset, limit, rs)
  {
    SideBySide(dataOffset, limit, rs);
    if SomeClosesTooSoon(dataOffset, limit, rs) {
      ApartDiffer(Run(dataOffset, limit, EMPTY, rs), Kept(dataOffset, limit, rs));
    }
  }

  lemma {:induction false} AcceptedAreAcceptable(dataOffset: nat, limit: Option<nat>, rs: seq<Data>)
    ensures AllAcceptable(dataOffset, limit, Accepted(dataOffset, limit, rs))
  {
    if rs != [] {
      AcceptedAreAcceptable(dataOffset, limit, rs[..|rs| - 1]);
    }
  }

  /** Without such a record, no split of the accepted records uses fewer shards, refusals or not. */
  lemma {:induction false} StillOptimal(dataOffset: nat, limit: Option<nat>, rs: seq<Data>, other: seq<seq<Data>>)
    requires !SomeClosesTooSoon(dataOffset, limit, rs) && Flatten(other) == Accepted(dataOffset, limit, rs)
    requires forall k :: 0 <= k < |other| ==> Fits(dataOffset, limit, other[k])
    ensures |Run(dataOffset, limit, EMPTY, rs).Shards()| <= |other|
  {
    RefusalExact(dataOffset, limit, rs);
    AcceptedAreAcceptable(dataOffset, limit, rs);
    SplitIsOptimal(dataOffset, limit, Accepted(dataOffset, limit, rs), other);
  }

  /** A record that is refused as too large still closes the current shard, so the split of the
      accepted records is then not always the shortest one. */
  lemma {:induction false} RefusalCostsAShard(dataOffset: nat, limit: Option<nat>, a: Data, big: Data, b: Data)
    requires Acceptable(dataOffset, limit, a) && Acceptable(dataOffset, limit, b) && Fits(dataOffset, limit, [a, b])
    requires |big| >= RECORD_HEADER_SIZE && !Fits(dataOffset, limit, [big])
    ensures Run(dataOffset, limit, EMPTY, [a, big, b]).Shards() == [[a], [b]]
    ensures Run(dataOffset, limit, EMPTY, [a, b]).Shards() == [[a, b]]
  {
    assert [a, big, b][..2] == [a, big] && [a, big][..1] == [a] && [a][..0] == [] && [a, b][..1] == [a];
    assert Run(dataOffset, limit, EMPTY, [a]) == State([], [a]);
    if Fits(dataOffset, limit, [a, big]) {
      assert [a, big][1..2] == [big];
      PartFits(dataOffset, limit, [a, big], 1, 2);
    }
    assert [a] + [big] == [a, big] && [a] + [b] == [a, b];
    assert Run(dataOffset, limit, EMPTY, [a, big]) == State([[a]], []);
  }

  /** One instance: with a limit of 608 bytes, a record of 1000 bytes between two of 64 costs a shard. */
  lemma {:induction false} RefusalInstance()
    ensures var a, big := Zeros(64), Zeros(1000);
            && Run(448, Some(608), EMPTY, [a, big, a]).Shards() == [[a], [a]]
            && Run(448, Some(608), EMPTY, [a, a]).Shards() == [[a, a]]
  {
    var a, big := Zeros(64), Zeros(1000);
    SizeOfOne(a);
    SizeOfOne(big);
    TotalSnoc([a], a);
    assert [a] + [a] == [a, a];
    assert AlignUp(448 + 64, 64) == 512 && AlignUp(448 + 128, 64) == 576 && AlignUp(448 + 1000, 64) == 1472;
    RefusalCostsAShard(448, Some(608), a, big, a);
  }

  lemma {:induction false} SizeOfOne(r: Data)
    ensures TotalBytes([r]) == |r|
  {
    assert [r][..0] == [];
  }
}
