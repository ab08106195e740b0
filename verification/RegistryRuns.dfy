/** What the ids of the registry keep from one generation to the next. */
module RegistryRuns {
  import opened Decimal
  import opened RegistryText
  import opened RegistryHeader
  import opened RegistryOrder
  import opened Registry

  /** The same names, each once. */
  ghost predicate Rearranges(a: seq<string>, b: seq<string>) {
    Distinct(a) && Distinct(b) && forall x :: x in a <==> x in b
  }

  ghost predicate NamesAscend(names: seq<string>) {
    forall i, j :: 0 <= i < j < |names| ==> Less(names[i], names[j])
  }

  /** Position of a name in the list, counted from 1; 0 when it is absent or reserved. */
  function IdIn(names: seq<string>, name: string): (id: nat)
    ensures id <= |names|
  {
    if names == [] then 0
    else if names[|names| - 1] == name && !Reserved(name) then |names|
    else IdIn(names[..|names| - 1], name)
  }

  lemma {:induction false} IdInExact(names: seq<string>, name: string)
    requires Distinct(names)
    ensures IdIn(names, name) > 0 <==> name in names && !Reserved(name)
    ensures IdIn(names, name) > 0 ==> names[IdIn(names, name) - 1] == name
  {
    if names != [] {
      var init := names[..|names| - 1];
      IdInExact(init, name);
      assert names == init + [names[|names| - 1]];
    }
  }

  /** The text gives exactly the operations of `names` their positions as ids. */
  ghost predicate Assigns(text: string, names: seq<string>) {
    forall name :: LastId(TextEntries(text), name, 0) == IdIn(names, name)
  }

  lemma {:induction false} NoHeaderAssigns()
    ensures Assigns("", [])
  {
  }

  lemma {:induction false} LastIdSnoc(es: seq<Entry>, e: Entry, name: string)
    ensures LastId(es + [e], name, 0) == if Sets(e, name) then e.id else LastId(es, name, 0)
  {
    assert (es + [e])[..|es|] == es;
  }

  lemma {:induction false} OpEntriesId(front: seq<Entry>, names: seq<string>, name: string)
    requires LastId(front, name, 0) == 0
    ensures LastId(front + OpEntries(names), name, 0) == IdIn(names, name)
  {
    if names == [] {
      assert front + OpEntries(names) == front;
    } else {
      var init, n := names[..|names| - 1], |names|;
      OpEntriesId(front, init, name);
      OpEntriesSnoc(names);
      assert front + OpEntries(names) == front + OpEntries(init) + [Entry(names[n - 1], n)];
      LastIdSnoc(front + OpEntries(init), Entry(names[n - 1], n), name);
    }
  }

  lemma {:induction false} FrontId(name: string)
    ensures LastId([GUARD, GUARD, Entry("invalid", 0)], name, 0) == 0
  {
    assert [GUARD, GUARD, Entry("invalid", 0)] == [] + [GUARD] + [GUARD] + [Entry("invalid", 0)];
    LastIdSnoc([], GUARD, name);
    LastIdSnoc([] + [GUARD], GUARD, name);
    LastIdSnoc([] + [GUARD] + [GUARD], Entry("invalid", 0), name);
  }

  /** A header that says `names` assigns them: the entries around them set nothing. */
  lemma {:induction false} SaysAssigns(text: string, names: seq<string>)
    requires Says(text, names)
    ensures Assigns(text, names)
  {
    forall name
      ensures LastId(TextEntries(text), name, 0) == IdIn(names, name)
    {
      var front, count := [GUARD, GUARD, Entry("invalid", 0)], Entry("count", |names| + 1);
      FrontId(name);
      OpEntriesId(front, names, name);
      LastIdSnoc(front + OpEntries(names), count, name);
      LastIdSnoc(front + OpEntries(names) + [count], GUARD, name);
    }
  }

  // ---------- the new order ----------

  /** The operations that keep their place: named by the header, scanned again, not reserved. */
  function Survivors(names: seq<string>, scan: seq<string>): seq<string> {
    if names == [] then []
    else
      var last := names[|names| - 1];
      Survivors(names[..|names| - 1], scan) + (if last in scan && !Reserved(last) then [last] else [])
  }

  ghost predicate Survives(names: seq<string>, scan: seq<string>, x: string) {
    x in names && x in scan && !Reserved(x)
  }

  lemma {:induction false} SurvivorsExact(names: seq<string>, scan: seq<string>)
    ensures forall x :: x in Survivors(names, scan) <==> Survives(names, scan, x)
  {
    if names != [] {
      SurvivorsExact(names[..|names| - 1], scan);
      assert names == names[..|names| - 1] + [names[|names| - 1]];
    }
  }

  /** An operation as the sort sees it. */
  function Known(names: seq<string>, x: string): Op {
    Op(x, IdIn(names, x), 0)
  }

  function AllKnown(names: seq<string>, xs: seq<string>): (r: seq<Op>)
    ensures |r| == |xs| && forall i :: 0 <= i < |r| ==> r[i] == Known(names, xs[i])
  {
    seq(|xs|, i requires 0 <= i < |xs| => Known(names, xs[i]))
  }

  lemma {:induction false} AppliedIsKnown(text: string, names: seq<string>, scan: seq<string>)
    requires Assigns(text, names)
    ensures Applied(Fresh(scan), TextEntries(text)) == AllKnown(names, scan)
  {
  }

  lemma {:induction false} KnownDistinct(names: seq<string>, xs: seq<string>)
    requires Distinct(xs)
    ensures DistinctNames(AllKnown(names, xs))
  {
  }

  lemma {:induction false} KnownSame(names: seq<string>, a: seq<string>, b: seq<string>)
    requires forall x :: x in a <==> x in b
    ensures SameOps(AllKnown(names, a), AllKnown(names, b))
  {
    forall op
      ensures op in AllKnown(names, a) <==> op.name in a && op == Known(names, op.name)
    {
      KnownIn(names, a, op);
    }
    forall op
      ensures op in AllKnown(names, b) <==> op.name in b && op == Known(names, op.name)
    {
      KnownIn(names, b, op);
    }
  }

  lemma {:induction false} KnownIn(names: seq<string>, xs: seq<string>, op: Op)
    ensures op in AllKnown(names, xs) <==> op.name in xs && op == Known(names, op.name)
  {
    if op.name in xs && op == Known(names, op.name) {
      var i :| 0 <= i < |xs| && xs[i] == op.name;
      assert AllKnown(names, xs)[i] == op;
    }
  }

  /** A list of the scanned names in the order of the sort is the new order. */
  lemma {:induction false} OrderIs(text: string, names: seq<string>, scan: seq<string>, r: seq<string>)
    requires Assigns(text, names) && Rearranges(r, scan) && Ascending(AllKnown(names, r))
    ensures Order(text, scan) == r
  {
    AppliedIsKnown(text, names, scan);
    KnownDistinct(names, scan);
    SortExact(AllKnown(names, scan));
    KnownSame(names, r, scan);
    SortedUnique(SortOps(AllKnown(names, scan)), AllKnown(names, r));
  }

  /** The ids do not depend on the order in which the directory lists the operations, whatever the
      existing header says. */
  lemma {:induction false} ScanOrderIrrelevant(text: string, a: seq<string>, b: seq<string>)
    requires Rearranges(a, b)
    ensures Order(text, a) == Order(text, b)
  {
    var es := TextEntries(text);
    forall op
      ensures op in Applied(Fresh(a), es) <==> op in Applied(Fresh(b), es)
    {
      AppliedIn(es, a, op);
      AppliedIn(es, b, op);
    }
    SortIgnoresOrder(Applied(Fresh(a), es), Applied(Fresh(b), es));
  }

  lemma {:induction false} AppliedIn(es: seq<Entry>, xs: seq<string>, op: Op)
    ensures op in Applied(Fresh(xs), es) <==> op.name in xs && op == Op(op.name, LastId(es, op.name, 0), 0)
  {
    if op.name in xs && op == Op(op.name, LastId(es, op.name, 0), 0) {
      var i :| 0 <= i < |xs| && xs[i] == op.name;
      assert Applied(Fresh(xs), es)[i] == op;
    }
  }

  /** The new order has exactly the scanned names, each once: the ids 1..n are a bijection. */
  lemma {:induction false} OrderRearranges(text: string, scan: seq<string>)
    requires Distinct(scan)
    ensures Rearranges(Order(text, scan), scan) && |Order(text, scan)| == |scan|
  {
    var es := TextEntries(text);
    var ops := Applied(Fresh(scan), es);
    var sorted := SortOps(ops);
    SortExact(ops);
    forall x
      ensures x in Names(sorted) <==> x in scan
    {
      var op := Op(x, LastId(es, x, 0), 0);
      AppliedIn(es, scan, op);
      if x in Names(sorted) {
        var i :| 0 <= i < |sorted| && Names(sorted)[i] == x;
        AppliedIn(es, scan, sorted[i]);
        assert sorted[i] in ops;
      }
      if x in scan {
        var i :| 0 <= i < |sorted| && sorted[i] == op;
        assert Names(sorted)[i] == x;
      }
    }
    forall i, j | 0 <= i < j < |sorted|
      ensures Names(sorted)[i] != Names(sorted)[j]
    {
      assert sorted[i] in ops && sorted[j] in ops;
      AppliedIn(es, scan, sorted[i]);
      AppliedIn(es, scan, sorted[j]);
      OrderLaws(sorted[i], sorted[j], sorted[i]);
    }
  }

  // ---------- old ids first, then the newcomers by name ----------

  lemma {:induction false} IdInPrefix(names: seq<string>, x: string)
    requires Distinct(names) && names != [] && x in names[..|names| - 1]
    ensures IdIn(names, x) == IdIn(names[..|names| - 1], x)
  {
  }

  ghost predicate Increasing(names: seq<string>, k: seq<string>) {
    && (forall i :: 0 <= i < |k| ==> IdIn(names, k[i]) > 0)
    && (forall i, j :: 0 <= i < j < |k| ==> IdIn(names, k[i]) < IdIn(names, k[j]))
  }

  ghost predicate NoIds(names: seq<string>, n: seq<string>) {
    forall i :: 0 <= i < |n| ==> IdIn(names, n[i]) == 0
  }

  lemma {:induction false} SurvivorsAscend(names: seq<string>, scan: seq<string>)
    requires Distinct(names)
    ensures Increasing(names, Survivors(names, scan))
  {
    if names != [] {
      var init, last := names[..|names| - 1], names[|names| - 1];
      var before, k := Survivors(init, scan), Survivors(names, scan);
      SurvivorsAscend(init, scan);
      SurvivorsExact(init, scan);
      forall i | 0 <= i < |before|
        ensures k[i] == before[i] && IdIn(names, k[i]) == IdIn(init, before[i]) < |names|
      {
        assert before[i] in before;
        IdInPrefix(names, before[i]);
      }
      forall i | |before| <= i < |k|
        ensures i == |before| && IdIn(names, k[i]) == |names|
      {
        assert k[i] == last;
      }
    }
  }

  /** The scanned names without an id. */
  function Newcomers(names: seq<string>, scan: seq<string>): seq<string> {
    if scan == [] then []
    else
      var last := scan[|scan| - 1];
      Newcomers(names, scan[..|scan| - 1]) + (if last in names && !Reserved(last) then [] else [last])
  }

  lemma {:induction false} AppendDistinct(xs: seq<string>, x: string)
    requires Distinct(xs) && x !in xs
    ensures Distinct(xs + [x])
  {
  }

  lemma {:induction false} NewcomersExact(names: seq<string>, scan: seq<string>)
    requires Distinct(scan)
    ensures Distinct(Newcomers(names, scan))
    ensures forall x :: x in Newcomers(names, scan) <==> x in scan && !Survives(names, scan, x)
  {
    if scan != [] {
      var init, last := scan[..|scan| - 1], scan[|scan| - 1];
      NewcomersExact(names, init);
      assert scan == init + [last];
      assert last !in init;
      AppendDistinct(Newcomers(names, init), last);
    }
  }

  /** Without a header, the order is by name. */
  lemma {:induction false} FreshByName(scan: seq<string>)
    requires Distinct(scan)
    ensures NamesAscend(Order("", scan))
  {
    var ops := Applied(Fresh(scan), []);
    SortExact(ops);
    var sorted := SortOps(ops);
    forall i | 0 <= i < |sorted|
      ensures sorted[i].oldId == 0
    {
      assert sorted[i] in ops;
    }
    assert TextEntries("") == [];
  }

  lemma {:induction false} JoinAscends(names: seq<string>, k: seq<string>, n: seq<string>)
    requires Increasing(names, k)
    requires NoIds(names, n) && NamesAscend(n)
    ensures Ascending(AllKnown(names, k + n))
  {
    var r := k + n;
    forall i, j | 0 <= i < j < |r|
      ensures Before(Known(names, r[i]), Known(names, r[j]))
    {
    }
  }

  lemma {:induction false} JoinDistinct(names: seq<string>, k: seq<string>, n: seq<string>)
    requires Increasing(names, k)
    requires NoIds(names, n) && Distinct(n)
    ensures Distinct(k + n)
  {
    var r := k + n;
    forall i, j | 0 <= i < j < |r|
      ensures r[i] != r[j]
    {
    }
  }

  /** Exactly what a generation does to the ids: the operations the header knows keep their order, and
      the newcomers follow them by name. */
  lemma {:induction false} OrderExact(text: string, names: seq<string>, scan: seq<string>)
    requires Assigns(text, names) && Distinct(names) && Distinct(scan)
    ensures Order(text, scan) == Survivors(names, scan) + Order("", Newcomers(names, scan))
    ensures NamesAscend(Order("", Newcomers(names, scan)))
  {
    var k, added := Survivors(names, scan), Newcomers(names, scan);
    var n := Order("", added);
    NewcomersExact(names, scan);
    FreshByName(added);
    OrderRearranges("", added);
    SurvivorsAscend(names, scan);
    SurvivorsExact(names, scan);
    forall i | 0 <= i < |n|
      ensures IdIn(names, n[i]) == 0
    {
      assert n[i] in n;
      IdInExact(names, n[i]);
    }
    JoinAscends(names, k, n);
    JoinDistinct(names, k, n);
    assert forall x :: x in k + n <==> x in scan;
    OrderIs(text, names, scan, k + n);
  }

  // ---------- consequences ----------

  ghost predicate NoReserved(names: seq<string>) {
    forall i :: 0 <= i < |names| ==> !Reserved(names[i])
  }

  ghost predicate Includes(a: seq<string>, b: seq<string>) {
    forall x :: x in b ==> x in a
  }

  lemma {:induction false} AllSurvive(names: seq<string>, scan: seq<string>)
    requires NoReserved(names) && Includes(scan, names)
    ensures Survivors(names, scan) == names
  {
    if names != [] {
      AllSurvive(names[..|names| - 1], scan);
    }
  }

  lemma {:induction false} NoneNew(names: seq<string>, scan: seq<string>)
    requires NoReserved(names) && Includes(names, scan)
    ensures Newcomers(names, scan) == []
  {
    if scan != [] {
      NoneNew(names, scan[..|scan| - 1]);
      assert scan[|scan| - 1] in scan;
    }
  }

  /** Adding operations keeps every id: the new ones come after, by name. */
  lemma {:induction false} AddingKeepsIds(text: string, names: seq<string>, scan: seq<string>)
    requires Assigns(text, names) && Distinct(names) && Distinct(scan)
    requires NoReserved(names) && Includes(scan, names)
    ensures var r := Order(text, scan); |names| <= |r| && r[..|names|] == names && NamesAscend(r[|names|..])
  {
    OrderExact(text, names, scan);
    AllSurvive(names, scan);
  }

  /** Removing operations keeps the order of the others and closes the gaps. */
  lemma {:induction false} RemovingKeepsOrder(text: string, names: seq<string>, scan: seq<string>)
    requires Assigns(text, names) && Distinct(names) && Distinct(scan)
    requires NoReserved(names) && Includes(names, scan)
    ensures Order(text, scan) == Survivors(names, scan)
  {
    OrderExact(text, names, scan);
    NoneNew(names, scan);
  }

  /** Where the reserved names must be: at the end, by name. */
  ghost predicate ReservedLast(names: seq<string>) {
    forall i, j :: 0 <= i < j < |names| && Reserved(names[i]) ==> Reserved(names[j]) && Less(names[i], names[j])
  }

  lemma {:induction false} ReservedLastSorts(names: seq<string>)
    requires Distinct(names) && ReservedLast(names)
    ensures Ascending(AllKnown(names, names))
  {
    forall i, j | 0 <= i < j < |names|
      ensures Before(Known(names, names[i]), Known(names, names[j]))
    {
      IdInExact(names, names[i]);
      IdInExact(names, names[j]);
    }
  }

  lemma {:induction false} SplitReservesLast(names: seq<string>)
    requires Distinct(names)
    requires names == Survivors(names, names) + Order("", Newcomers(names, names))
    requires NamesAscend(Order("", Newcomers(names, names)))
    ensures ReservedLast(names)
  {
    var k, n := Survivors(names, names), Order("", Newcomers(names, names));
    SurvivorsExact(names, names);
    NewcomersExact(names, names);
    OrderRearranges("", Newcomers(names, names));
    forall i | 0 <= i < |k|
      ensures !Reserved(k[i])
    {
      assert k[i] in k;
    }
    forall i, j | 0 <= i < j < |names| && Reserved(names[i])
      ensures Reserved(names[j]) && Less(names[i], names[j])
    {
      assert n[i - |k|] == names[i] && n[j - |k|] == names[j];
      assert n[j - |k|] in n;
    }
  }

  /** Generating again from the generated header changes nothing exactly when the operations with
      reserved names come last, by name. */
  lemma {:induction false} FixedPointExact(names: seq<string>)
    requires Distinct(names) && AllValid(names) && |names| <= MAX_OPS
    ensures Order(Header(names), names) == names <==> ReservedLast(names)
  {
    HeaderReads(names);
    SaysAssigns(Header(names), names);
    OrderExact(Header(names), names, names);
    if Order(Header(names), names) == names {
      SplitReservesLast(names);
    }
    if ReservedLast(names) {
      ReservedLastSorts(names);
      OrderIs(Header(names), names, names, names);
    }
  }

  lemma {:induction false} OrderValid(text: string, scan: seq<string>)
    requires Distinct(scan) && AllValid(scan)
    ensures AllValid(Order(text, scan))
  {
    OrderRearranges(text, scan);
    var r := Order(text, scan);
    forall i | 0 <= i < |r|
      ensures ValidName(r[i])
    {
      assert r[i] in r;
    }
  }

  /** The same from any header, and whatever order the next scan lists the operations in. */
  lemma {:induction false} SecondRunExact(text: string, scan: seq<string>, again: seq<string>)
    requires Rearranges(again, scan) && AllValid(scan) && |scan| <= MAX_OPS
    ensures var r := Order(text, scan); Order(Header(r), again) == r <==> ReservedLast(r)
  {
    var r := Order(text, scan);
    OrderRearranges(text, scan);
    OrderValid(text, scan);
    FixedPointExact(r);
    ScanOrderIrrelevant(Header(r), again, r);
  }

  /** An operation called `count` or `invalid` loses its id to `zeta` when the generator runs again. */
  lemma {:induction false} ReservedNamesMove(name: string)
    requires name == "count" || name == "invalid"
    ensures var r := Order("", [name, "zeta"]); r == [name, "zeta"] && Order(Header(r), r) == ["zeta", name]
  {
    var scan := [name, "zeta"];
    var r := Order("", scan);
    ValidPair(name);
    OrderRearranges("", scan);
    FreshByName(scan);
    assert r[0] in scan && r[1] in scan;
    LessTrichotomy(name, "zeta");
    TwoNames(r, name);
  }

  lemma {:induction false} TwoNames(names: seq<string>, name: string)
    requires names == [name, "zeta"] && (name == "count" || name == "invalid")
    ensures Order(Header(names), names) == ["zeta", name]
  {
    ValidPair(name);
    HeaderReads(names);
    SaysAssigns(Header(names), names);
    MovesLast(Header(names), names);
  }

  lemma {:induction false} ValidPair(name: string)
    requires name == "count" || name == "invalid"
    ensures var names := [name, "zeta"];
            AllValid(names) && Distinct(names) && Reserved(names[0]) && !Reserved(names[1]) && Less(name, "zeta")
  {
    assert ValidName(name) && ValidName("zeta");
  }

  /** A reserved name in front goes behind the other one. */
  lemma {:induction false} MovesLast(text: string, names: seq<string>)
    requires |names| == 2 && Distinct(names) && Reserved(names[0]) && !Reserved(names[1]) && Assigns(text, names)
    ensures Order(text, names) == [names[1], names[0]]
  {
    IdInExact(names, names[0]);
    IdInExact(names, names[1]);
    OrderIs(text, names, names, [names[1], names[0]]);
  }

  // ---------- whole runs ----------

  /** The registry after the generator ran for each scan in turn, starting without a header. */
  function Run(scans: seq<seq<string>>): seq<string>
    decreases |scans|, 0
  {
    if scans == [] then [] else Order(HeaderAfter(scans[..|scans| - 1]), scans[|scans| - 1])
  }

  function HeaderAfter(scans: seq<seq<string>>): string
    decreases |scans|, 1
  {
    if scans == [] then "" else Header(Run(scans))
  }

  ghost predicate GoodScan(scan: seq<string>) {
    Distinct(scan) && AllValid(scan) && NoReserved(scan) && |scan| <= MAX_OPS
  }

  ghost predicate GoodScans(scans: seq<seq<string>>) {
    forall i :: 0 <= i < |scans| ==> GoodScan(scans[i])
  }

  lemma {:induction false} RunGood(scans: seq<seq<string>>)
    requires GoodScans(scans)
    ensures GoodScan(Run(scans)) && Assigns(HeaderAfter(scans), Run(scans))
    ensures scans != [] ==> Rearranges(Run(scans), scans[|scans| - 1])
  {
    if scans == [] {
      NoHeaderAssigns();
    } else {
      var text, scan := HeaderAfter(scans[..|scans| - 1]), scans[|scans| - 1];
      var r := Run(scans);
      OrderRearranges(text, scan);
      OrderValid(text, scan);
      forall i | 0 <= i < |r|
        ensures !Reserved(r[i])
      {
        assert r[i] in r;
      }
      HeaderReads(r);
      SaysAssigns(Header(r), r);
    }
  }

  /** Every scan has the operations of the one before. */
  ghost predicate Growing(scans: seq<seq<string>>) {
    forall i :: 0 < i < |scans| ==> Includes(scans[i], scans[i - 1])
  }

  lemma {:induction false} RunGrows(scans: seq<seq<string>>, n: nat)
    requires GoodScans(scans) && Growing(scans) && n < |scans|
    ensures Run(scans[..n]) <= Run(scans[..n + 1])
  {
    RunGood(scans[..n]);
    assert scans[..n + 1][..n] == scans[..n];
    AddingKeepsIds(HeaderAfter(scans[..n]), Run(scans[..n]), scans[n]);
  }

  /** While operations are only added, no id ever changes: every registry of the run is a prefix of every
      later one. */
  lemma {:induction false} IdsNeverChange(scans: seq<seq<string>>, i: nat, j: nat)
    requires GoodScans(scans) && Growing(scans) && i <= j <= |scans|
    ensures Run(scans[..i]) <= Run(scans[..j])
    decreases j
  {
    if i < j {
      IdsNeverChange(scans, i, j - 1);
      RunGrows(scans, j - 1);
      PrefixOfPrefix(Run(scans[..i]), Run(scans[..j - 1]), Run(scans[..j]));
    }
  }

  lemma {:induction false} PrefixOfPrefix(a: seq<string>, b: seq<string>, c: seq<string>)
    requires a <= b <= c
    ensures a <= c
  {
  }
}
