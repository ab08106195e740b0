/** The order of operations (`gd_compare_ops`) and the list it sorts to. */
module RegistryOrder {
  import opened Decimal

  /** An operation: `oldId` is the id in the existing header, 0 when it has none. */
  datatype Op = Op(name: string, oldId: nat, newId: nat)

  /** The sign of `strcmp`. */
  function CompareNames(a: string, b: string): int {
    if Less(a, b) then -1 else if a == b then 0 else 1
  }

  /** `gd_compare_ops`: known operations by id, then the others by name. */
  function CompareOps(a: Op, b: Op): int {
    if a.oldId != 0 && b.oldId != 0 then
      if a.oldId < b.oldId then -1
      else if a.oldId > b.oldId then 1
      else CompareNames(a.name, b.name)
    else if a.oldId != 0 then -1
    else if b.oldId != 0 then 1
    else CompareNames(a.name, b.name)
  }

  predicate Before(a: Op, b: Op) { CompareOps(a, b) < 0 }

  /** The comparison is a strict order, total on different names, and consistent in its sign. */
  lemma {:induction false} OrderLaws(a: Op, b: Op, c: Op)
    ensures !Before(a, a)
    ensures Before(a, b) ==> !Before(b, a)
    ensures Before(a, b) <==> CompareOps(b, a) > 0
    ensures a.name != b.name ==> Before(a, b) || Before(b, a)
    ensures Before(a, b) && Before(b, c) ==> Before(a, c)
  {
    LessTrichotomy(a.name, b.name);
    LessIrreflexive(a.name);
    if Less(a.name, b.name) && Less(b.name, c.name) {
      LessTransitive(a.name, b.name, c.name);
    }
  }

  ghost predicate Ascending(s: seq<Op>) {
    forall i, j :: 0 <= i < j < |s| ==> Before(s[i], s[j])
  }

  ghost predicate DistinctNames(s: seq<Op>) {
    forall i, j :: 0 <= i < j < |s| ==> s[i].name != s[j].name
  }

  ghost predicate SameOps(a: seq<Op>, b: seq<Op>) {
    forall x :: x in a <==> x in b
  }

  lemma {:induction false} InTail(s: seq<Op>, x: Op)
    requires s != [] && Ascending(s)
    ensures x in s[1..] <==> x in s && x != s[0]
  {
    if x in s[1..] {
      var i :| 0 <= i < |s| - 1 && s[1..][i] == x;
      assert x == s[i + 1];
      OrderLaws(s[0], x, x);
    }
    if x in s && x != s[0] {
      var i :| 0 <= i < |s| && s[i] == x;
      assert s[1..][i - 1] == x;
    }
  }

  lemma {:induction false} AscendingTail(s: seq<Op>)
    requires s != [] && Ascending(s)
    ensures Ascending(s[1..])
  {
    forall i, j | 0 <= i < j < |s| - 1
      ensures Before(s[1..][i], s[1..][j])
    {
      assert Before(s[i + 1], s[j + 1]);
    }
  }

  lemma {:induction false} SameHead(a: seq<Op>, b: seq<Op>)
    requires Ascending(a) && Ascending(b) && SameOps(a, b) && a != [] && b != []
    ensures a[0] == b[0]
  {
    assert a[0] in b && b[0] in a;
    var k :| 0 <= k < |b| && b[k] == a[0];
    var j :| 0 <= j < |a| && a[j] == b[0];
    OrderLaws(a[0], b[0], b[0]);
  }

  lemma {:induction false} NoneLeft(a: seq<Op>, b: seq<Op>)
    requires SameOps(a, b)
    ensures a == [] ==> b == []
  {
    if b != [] {
      var y := b[0];
      assert y in b;
    }
  }

  /** There is only one way to sort: any two sorted lists of the same operations are equal. So it does
      not matter how `qsort` works or in what order it gets them. */
  lemma {:induction false} SortedUnique(a: seq<Op>, b: seq<Op>)
    requires Ascending(a) && Ascending(b) && SameOps(a, b)
    ensures a == b
  {
    if a == [] || b == [] {
      NoneLeft(a, b);
      NoneLeft(b, a);
    } else {
      SameHead(a, b);
      AscendingTail(a);
      AscendingTail(b);
      forall x
        ensures x in a[1..] <==> x in b[1..]
      {
        InTail(a, x);
        InTail(b, x);
      }
      SortedUnique(a[1..], b[1..]);
      assert a == [a[0]] + a[1..] && b == [b[0]] + b[1..];
    }
  }

  // ---------- sorting ----------

  function Insert(x: Op, s: seq<Op>): seq<Op> {
    if s == [] then [x] else if Before(x, s[0]) then [x] + s else [s[0]] + Insert(x, s[1..])
  }

  /** The list `qsort` leaves. */
  function SortOps(s: seq<Op>): seq<Op> {
    if s == [] then [] else Insert(s[|s| - 1], SortOps(s[..|s| - 1]))
  }

  lemma {:induction false} InsertHas(x: Op, s: seq<Op>)
    ensures |Insert(x, s)| == |s| + 1
    ensures forall y :: y in Insert(x, s) <==> y == x || y in s
  {
    if s != [] && !Before(x, s[0]) {
      InsertHas(x, s[1..]);
      assert s == [s[0]] + s[1..];
    }
  }

  lemma {:induction false} Prepend(x: Op, s: seq<Op>)
    requires Ascending(s) && forall y :: y in s ==> Before(x, y)
    ensures Ascending([x] + s)
  {
    forall i, j | 0 <= i < j <= |s|
      ensures Before(([x] + s)[i], ([x] + s)[j])
    {
      assert ([x] + s)[j] == s[j - 1] && s[j - 1] in s;
    }
  }

  lemma {:induction false} InsertSorts(x: Op, s: seq<Op>)
    requires Ascending(s) && forall y :: y in s ==> y.name != x.name
    ensures Ascending(Insert(x, s))
  {
    if s == [] {
    } else if Before(x, s[0]) {
      forall y | y in s
        ensures Before(x, y)
      {
        OrderLaws(x, s[0], y);
      }
      Prepend(x, s);
    } else {
      AscendingTail(s);
      InsertSorts(x, s[1..]);
      InsertHas(x, s[1..]);
      forall y | y in Insert(x, s[1..])
        ensures Before(s[0], y)
      {
        OrderLaws(s[0], x, x);
        if y != x {
          InTail(s, y);
        }
      }
      Prepend(s[0], Insert(x, s[1..]));
    }
  }

  /** Sorting keeps the operations and orders them. */
  lemma {:induction false} SortExact(s: seq<Op>)
    requires DistinctNames(s)
    ensures Ascending(SortOps(s)) && SameOps(SortOps(s), s) && |SortOps(s)| == |s|
  {
    if s != [] {
      var init, x := s[..|s| - 1], s[|s| - 1];
      SortExact(init);
      InsertHas(x, SortOps(init));
      InsertSorts(x, SortOps(init));
      assert s == init + [x];
    }
  }

  /** Any order of the same operations sorts to the same list. */
  lemma {:induction false} SortIgnoresOrder(a: seq<Op>, b: seq<Op>)
    requires DistinctNames(a) && DistinctNames(b) && SameOps(a, b)
    ensures SortOps(a) == SortOps(b)
  {
    SortExact(a);
    SortExact(b);
    SortedUnique(SortOps(a), SortOps(b));
  }
}
