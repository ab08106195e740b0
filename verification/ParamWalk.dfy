/** What the walk over a module graph visits, said by addresses: every trainable parameter once, under the
    names that lead to it, a module's own parameters before those of its children. */
module ParamWalk {
  import opened Seqs
  import opened Params

  /** The children to descend through, then a parameter of the module reached. */
  datatype Address = Address(down: seq<nat>, param: nat)

  /** What an address leads to under the names along the way: a trainable parameter, or nothing. */
  function Visited(m: Module, path: string, a: Address): Option<Visit>
    decreases |a.down|
  {
    if a.down != [] then
      if a.down[0] >= |m.children| then None
      else
        var c := m.children[a.down[0]];
        Visited(c.child, Join(path, c.name), Address(a.down[1..], a.param))
    else if a.param < |m.params| && m.params[a.param].tensor.trainable then
      Some(Visit(Join(path, m.params[a.param].name), m.params[a.param].tensor.id))
    else None
  }

  /** Depth first; a module's own parameters come before those of its children. */
  predicate Earlier(a: Address, b: Address)
    decreases |a.down|
  {
    if a.down == [] then b.down != [] || a.param < b.param
    else
      b.down != []
      && (a.down[0] < b.down[0]
          || (a.down[0] == b.down[0] && Earlier(a.(down := a.down[1..]), b.(down := b.down[1..]))))
  }

  /** Any two addresses stand in exactly one order. */
  lemma {:induction false} EarlierTotal(a: Address, b: Address)
    ensures !(Earlier(a, b) && Earlier(b, a))
    ensures a != b ==> Earlier(a, b) || Earlier(b, a)
    decreases |a.down|
  {
    if a.down != [] && b.down != [] && a.down[0] == b.down[0] {
      EarlierTotal(a.(down := a.down[1..]), b.(down := b.down[1..]));
      assert a.down == [a.down[0]] + a.down[1..] && b.down == [b.down[0]] + b.down[1..];
    }
  }

  // ---------- the addresses in the order of the walk ----------

  function ParamAddresses(m: Module, n: nat): seq<Address>
    requires n <= |m.params|
  {
    if n == 0 then []
    else ParamAddresses(m, n - 1) + (if m.params[n - 1].tensor.trainable then [Address([], n - 1)] else [])
  }

  function Below(k: nat, a: Address): Address { Address([k] + a.down, a.param) }

  function AllBelow(k: nat, addresses: seq<Address>): (r: seq<Address>)
    ensures |r| == |addresses| && forall i :: 0 <= i < |r| ==> r[i] == Below(k, addresses[i])
  {
    seq(|addresses|, i requires 0 <= i < |addresses| => Below(k, addresses[i]))
  }

  function Addresses(m: Module): seq<Address>
    decreases m, |m.children| + 1
  {
    ParamAddresses(m, |m.params|) + ChildAddresses(m, |m.children|)
  }

  function ChildAddresses(m: Module, n: nat): seq<Address>
    requires n <= |m.children|
    decreases m, n
  {
    if n == 0 then []
    else ChildAddresses(m, n - 1) + AllBelow(n - 1, Addresses(m.children[n - 1].child))
  }

  /** The visits are those at the addresses, in their order. */
  ghost predicate Lists(m: Module, path: string, addresses: seq<Address>, vs: seq<Visit>)
    decreases |addresses|
  {
    if addresses == [] then vs == []
    else
      var n := |addresses| - 1;
      |vs| == n + 1 && Visited(m, path, addresses[n]) == Some(vs[n]) && Lists(m, path, addresses[..n], vs[..n])
  }

  ghost predicate InOrder(addresses: seq<Address>) {
    forall i, j :: 0 <= i < j < |addresses| ==> Earlier(addresses[i], addresses[j])
  }

  // ---------- the visits are those at the addresses ----------

  lemma {:induction false} VisitedBelow(m: Module, path: string, k: nat, a: Address)
    requires k < |m.children|
    ensures Visited(m, path, Below(k, a)) == Visited(m.children[k].child, Join(path, m.children[k].name), a)
  {
    assert ([k] + a.down)[1..] == a.down;
  }

  lemma {:induction false} ListsSnoc(m: Module, path: string, addresses: seq<Address>, vs: seq<Visit>, a: Address,
        v: Visit)
    requires Lists(m, path, addresses, vs) && Visited(m, path, a) == Some(v)
    ensures Lists(m, path, addresses + [a], vs + [v])
  {
    ListsLength(m, path, addresses, vs);
    assert (addresses + [a])[..|addresses|] == addresses && (vs + [v])[..|vs|] == vs;
  }

  lemma {:induction false} ListsLength(m: Module, path: string, addresses: seq<Address>, vs: seq<Visit>)
    requires Lists(m, path, addresses, vs)
    ensures |vs| == |addresses|
  {
  }

  lemma {:induction false} ListsAppend(m: Module, path: string, a: seq<Address>, vs: seq<Visit>, b: seq<Address>,
        ws: seq<Visit>)
    requires Lists(m, path, a, vs) && Lists(m, path, b, ws)
    ensures Lists(m, path, a + b, vs + ws)
    decreases |b|
  {
    if b == [] {
      assert a + b == a && vs + ws == vs;
    } else {
      var n := |b| - 1;
      ListsAppend(m, path, a, vs, b[..n], ws[..n]);
      ListsSnoc(m, path, a + b[..n], vs + ws[..n], b[n], ws[n]);
      LastBehind(a, b);
      LastBehind(vs, ws);
    }
  }

  lemma {:induction false} LastBehind<T>(a: seq<T>, b: seq<T>)
    requires b != []
    ensures a + b[..|b| - 1] + [b[|b| - 1]] == a + b
  {
  }

  lemma {:induction false} ListsBelow(m: Module, path: string, k: nat, addresses: seq<Address>, vs: seq<Visit>)
    requires k < |m.children| && Lists(m.children[k].child, Join(path, m.children[k].name), addresses, vs)
    ensures Lists(m, path, AllBelow(k, addresses), vs)
    decreases |addresses|
  {
    if addresses != [] {
      var n := |addresses| - 1;
      ListsBelow(m, path, k, addresses[..n], vs[..n]);
      VisitedBelow(m, path, k, addresses[n]);
      assert AllBelow(k, addresses)[..n] == AllBelow(k, addresses[..n]);
    }
  }

  lemma {:induction false} ParamsListed(m: Module, path: string, n: nat)
    requires n <= |m.params|
    ensures Lists(m, path, ParamAddresses(m, n), ParamVisits(m, path, n))
    decreases n
  {
    if n > 0 {
      ParamsListed(m, path, n - 1);
      var p := m.params[n - 1];
      if p.tensor.trainable {
        ListsSnoc(m, path, ParamAddresses(m, n - 1), ParamVisits(m, path, n - 1), Address([], n - 1),
          Visit(Join(path, p.name), p.tensor.id));
      } else {
        assert ParamAddresses(m, n) == ParamAddresses(m, n - 1);
      }
    }
  }

  /** A child behind the ones before it. */
  lemma {:induction false} OneMoreChild(m: Module, path: string, k: nat, before: seq<Address>, vs: seq<Visit>,
        addresses: seq<Address>, ws: seq<Visit>)
    requires k < |m.children| && Lists(m, path, before, vs)
    requires Lists(m.children[k].child, Join(path, m.children[k].name), addresses, ws)
    ensures Lists(m, path, before + AllBelow(k, addresses), vs + ws)
  {
    ListsBelow(m, path, k, addresses, ws);
    ListsAppend(m, path, before, vs, AllBelow(k, addresses), ws);
  }

  lemma {:induction false} ChildrenListed(m: Module, path: string, n: nat)
    requires n <= |m.children|
    ensures Lists(m, path, ChildAddresses(m, n), ChildVisits(m, path, n))
    decreases m, n
  {
    if n > 0 {
      ChildrenListed(m, path, n - 1);
      AllListed(m.children[n - 1].child, Join(path, m.children[n - 1].name));
      ChildListed(m, path, n, Join(path, m.children[n - 1].name));
    }
  }

  lemma {:induction false} ChildListed(m: Module, path: string, n: nat, below: string)
    requires 0 < n <= |m.children| && below == Join(path, m.children[n - 1].name)
    requires Lists(m, path, ChildAddresses(m, n - 1), ChildVisits(m, path, n - 1))
    requires var child := m.children[n - 1].child; Lists(child, below, Addresses(child), Visits(child, below))
    ensures Lists(m, path, ChildAddresses(m, n), ChildVisits(m, path, n))
  {
    var child := m.children[n - 1].child;
    OneMoreChild(m, path, n - 1, ChildAddresses(m, n - 1), ChildVisits(m, path, n - 1), Addresses(child),
      Visits(child, below));
  }

  lemma {:induction false} AllListed(m: Module, path: string)
    ensures Lists(m, path, Addresses(m), Visits(m, path))
    decreases m, |m.children| + 1
  {
    ParamsListed(m, path, |m.params|);
    ChildrenListed(m, path, |m.children|);
    ListsAppend(m, path, ParamAddresses(m, |m.params|), ParamVisits(m, path, |m.params|),
      ChildAddresses(m, |m.children|), ChildVisits(m, path, |m.children|));
  }

  lemma {:induction false} ListsAt(m: Module, path: string, addresses: seq<Address>, vs: seq<Visit>, i: nat)
    requires Lists(m, path, addresses, vs) && i < |addresses|
    ensures |vs| == |addresses| && Visited(m, path, addresses[i]) == Some(vs[i])
    decreases |addresses|
  {
    var n := |addresses| - 1;
    if i < n {
      ListsAt(m, path, addresses[..n], vs[..n], i);
    }
  }

  // ---------- the order ----------

  lemma {:induction false} EarlierBelow(k: nat, a: Address, b: Address)
    requires Earlier(a, b)
    ensures Earlier(Below(k, a), Below(k, b))
  {
    assert ([k] + a.down)[1..] == a.down && ([k] + b.down)[1..] == b.down;
  }

  lemma {:induction false} OrderedBelow(k: nat, addresses: seq<Address>)
    requires InOrder(addresses)
    ensures InOrder(AllBelow(k, addresses))
  {
    var r := AllBelow(k, addresses);
    forall i, j | 0 <= i < j < |r|
      ensures Earlier(r[i], r[j])
    {
      EarlierBelow(k, addresses[i], addresses[j]);
    }
  }

  lemma {:induction false} OrderAppend(a: seq<Address>, b: seq<Address>)
    requires InOrder(a) && InOrder(b)
    requires forall i, j :: 0 <= i < |a| && 0 <= j < |b| ==> Earlier(a[i], b[j])
    ensures InOrder(a + b)
  {
  }

  lemma {:induction false} ParamsOrdered(m: Module, n: nat)
    requires n <= |m.params|
    ensures forall i :: 0 <= i < |ParamAddresses(m, n)| ==>
      ParamAddresses(m, n)[i].down == [] && ParamAddresses(m, n)[i].param < n
    ensures InOrder(ParamAddresses(m, n))
    decreases n
  {
    if n > 0 {
      ParamsOrdered(m, n - 1);
    }
  }

  /** The addresses below the first `n` children. */
  ghost predicate UnderFirst(addresses: seq<Address>, n: nat) {
    forall i :: 0 <= i < |addresses| ==> addresses[i].down != [] && addresses[i].down[0] < n
  }

  lemma {:induction false} ChildrenOrdered(m: Module, n: nat)
    requires n <= |m.children|
    ensures InOrder(ChildAddresses(m, n)) && UnderFirst(ChildAddresses(m, n), n)
    decreases m, n
  {
    if n > 0 {
      var before, more := ChildAddresses(m, n - 1), AllBelow(n - 1, Addresses(m.children[n - 1].child));
      ChildrenOrdered(m, n - 1);
      AllOrdered(m.children[n - 1].child);
      OrderedBelow(n - 1, Addresses(m.children[n - 1].child));
      OrderAppend(before, more);
    }
  }

  lemma {:induction false} AllOrdered(m: Module)
    ensures InOrder(Addresses(m))
    decreases m, |m.children| + 1
  {
    ParamsOrdered(m, |m.params|);
    ChildrenOrdered(m, |m.children|);
    OrderAppend(ParamAddresses(m, |m.params|), ChildAddresses(m, |m.children|));
  }

  // ---------- nothing is missed ----------

  lemma {:induction false} ParamsComplete(m: Module, n: nat, k: nat)
    requires k < n <= |m.params| && m.params[k].tensor.trainable
    ensures Address([], k) in ParamAddresses(m, n)
    decreases n
  {
    if k < n - 1 {
      ParamsComplete(m, n - 1, k);
    }
  }

  lemma {:induction false} BelowComplete(k: nat, addresses: seq<Address>, a: Address)
    requires a in addresses
    ensures Below(k, a) in AllBelow(k, addresses)
  {
    var i :| 0 <= i < |addresses| && addresses[i] == a;
    assert AllBelow(k, addresses)[i] == Below(k, a);
  }

  lemma {:induction false} ChildrenComplete(m: Module, n: nat, k: nat, a: Address)
    requires k < n <= |m.children| && a in Addresses(m.children[k].child)
    ensures Below(k, a) in ChildAddresses(m, n)
    decreases n
  {
    if k < n - 1 {
      ChildrenComplete(m, n - 1, k, a);
    } else {
      BelowComplete(k, Addresses(m.children[k].child), a);
    }
  }

  lemma {:induction false} Complete(m: Module, path: string, a: Address)
    requires Visited(m, path, a).Some?
    ensures a in Addresses(m)
    decreases |a.down|
  {
    if a.down == [] {
      ParamsComplete(m, |m.params|, a.param);
    } else {
      var k, rest := a.down[0], Address(a.down[1..], a.param);
      assert a.down == [k] + rest.down && a == Below(k, rest);
      Complete(m.children[k].child, Join(path, m.children[k].name), rest);
      ChildrenComplete(m, |m.children|, k, rest);
    }
  }

  /** The walk visits exactly the trainable parameters, each address once, depth first with a module's own
      parameters before its children, and each under the names that lead to it. */
  lemma {:induction false} VisitsExact(m: Module, path: string) returns (addresses: seq<Address>)
    ensures |addresses| == |Visits(m, path)| && InOrder(addresses)
    ensures forall i :: 0 <= i < |addresses| ==> Visited(m, path, addresses[i]) == Some(Visits(m, path)[i])
    ensures forall a :: Visited(m, path, a).Some? <==> a in addresses
  {
    addresses := Addresses(m);
    AllListed(m, path);
    ListsLength(m, path, addresses, Visits(m, path));
    AllOrdered(m);
    forall i | 0 <= i < |addresses|
      ensures Visited(m, path, addresses[i]) == Some(Visits(m, path)[i])
    {
      ListsAt(m, path, addresses, Visits(m, path), i);
    }
    forall a
      ensures Visited(m, path, a).Some? <==> a in addresses
    {
      if Visited(m, path, a).Some? {
        Complete(m, path, a);
      }
    }
  }
}
