/** Collecting the trainable parameters of a module graph (`collect_module_params`, `param_set_add`). */
module Params {
  import opened Seqs
  import opened Glob

  const MAX_PARAMS: nat := 256
  const MAX_ALIASES: nat := 8
  const MAX_PATH: nat := 256

  /** A tensor by identity. */
  datatype TensorRef = TensorRef(id: nat, trainable: bool)

  datatype Param = Param(name: string, tensor: TensorRef)

  /** A module; the graph below it is acyclic, and a module or tensor may occur in several places. */
  datatype Module = Module(params: seq<Param>, children: seq<Child>)

  datatype Child = Child(name: string, child: Module)

  datatype Group = Group(pattern: string)

  // ---------- the walk ----------

  /** What fits a path buffer, with its final NUL. */
  type Path = s: string | |s| < MAX_PATH

  /** A trainable tensor met under a path. */
  datatype Visit = Visit(path: Path, id: nat)

  /** `join_path`: what does not fit the buffer is cut off. */
  function Join(a: string, b: string): Path
  {
    var whole := if a == "" then b else a + "." + b;
    whole[..Min(|whole|, MAX_PATH - 1)]
  }

  /** Names that fit are joined by a dot; longer ones are cut to the 255 characters that fit. */
  lemma {:induction false} JoinExact(a: string, b: string)
    ensures var whole, path := if a == "" then b else a + "." + b, Join(a, b);
            && (|whole| < MAX_PATH ==> path == whole)
            && (|whole| >= MAX_PATH ==> |path| == MAX_PATH - 1 && path <= whole)
  {
  }

  /** The trainable ones among the first `n` parameters. */
  function ParamVisits(m: Module, path: string, n: nat): seq<Visit>
    requires n <= |m.params|
  {
    if n == 0 then []
    else
      var p := m.params[n - 1];
      if p.tensor.trainable then ParamVisits(m, path, n - 1) + [Visit(Join(path, p.name), p.tensor.id)]
      else ParamVisits(m, path, n - 1)
  }

  /** Depth first: the parameters of a module, then its children in order. */
  function Visits(m: Module, path: string): seq<Visit>
    decreases m, |m.children| + 1
  {
    ParamVisits(m, path, |m.params|) + ChildVisits(m, path, |m.children|)
  }

  function ChildVisits(m: Module, path: string, n: nat): seq<Visit>
    requires n <= |m.children|
    decreases m, n
  {
    if n == 0 then []
    else ChildVisits(m, path, n - 1) + Visits(m.children[n - 1].child, Join(path, m.children[n - 1].name))
  }

  // ---------- the set ----------

  datatype Collected = Collected(path: string, aliases: seq<string>, id: nat, group: Option<Group>)

  /** `match_group`: the first group whose pattern matches. */
  function FirstGroup(path: string, groups: seq<Group>): Option<Group> {
    if groups == [] then None
    else if Matches(groups[0].pattern, path) then Some(groups[0])
    else FirstGroup(path, groups[1..])
  }

  /** Position of a tensor among the items, or -1. */
  function FindTensor(items: seq<Collected>, id: nat): (k: int)
    ensures -1 <= k < |items|
    ensures k >= 0 ==> items[k].id == id && forall i :: 0 <= i < k ==> items[i].id != id
    ensures k < 0 ==> forall i :: 0 <= i < |items| ==> items[i].id != id
  {
    if items == [] then -1
    else
      var k := FindTensor(items[..|items| - 1], id);
      if k >= 0 then k else if items[|items| - 1].id == id then |items| - 1 else -1
  }

  /** `param_set_add`, capacities aside. */
  function Add(items: seq<Collected>, v: Visit, groups: seq<Group>): seq<Collected> {
    var k := FindTensor(items, v.id);
    if k >= 0 then items[k := items[k].(aliases := items[k].aliases + [v.path])]
    else items + [Collected(v.path, [], v.id, FirstGroup(v.path, groups))]
  }

  function AddAll(items: seq<Collected>, vs: seq<Visit>, groups: seq<Group>): seq<Collected> {
    if vs == [] then items else Add(AddAll(items, vs[..|vs| - 1], groups), vs[|vs| - 1], groups)
  }

  /** Everything fits the fixed arrays. */
  ghost predicate Within(items: seq<Collected>) {
    |items| <= MAX_PARAMS && forall i :: 0 <= i < |items| ==> |items[i].aliases| <= MAX_ALIASES
  }

  lemma {:induction false} AddAllAppend(items: seq<Collected>, a: seq<Visit>, b: seq<Visit>, groups: seq<Group>)
    ensures AddAll(items, a + b, groups) == AddAll(AddAll(items, a, groups), b, groups)
  {
    if b == [] {
      assert a + b == a;
    } else {
      assert (a + b)[..|a + b| - 1] == a + b[..|b| - 1];
      AddAllAppend(items, a, b[..|b| - 1], groups);
    }
  }

  /** Adding never makes room. */
  lemma {:induction false} AddGrows(items: seq<Collected>, v: Visit, groups: seq<Group>)
    ensures Within(Add(items, v, groups)) ==> Within(items)
  {
    var next := Add(items, v, groups);
    if Within(next) {
      forall i | 0 <= i < |items|
        ensures |items[i].aliases| <= MAX_ALIASES
      {
        assert |items[i].aliases| <= |next[i].aliases|;
      }
    }
  }

  lemma {:induction false} AddAllGrows(items: seq<Collected>, vs: seq<Visit>, groups: seq<Group>)
    ensures Within(AddAll(items, vs, groups)) ==> Within(items)
  {
    if vs != [] {
      AddGrows(AddAll(items, vs[..|vs| - 1], groups), vs[|vs| - 1], groups);
      AddAllGrows(items, vs[..|vs| - 1], groups);
    }
  }

  // ---------- the code ----------

  class ParamSet {
    var items: seq<Collected>

    constructor ()
      ensures items == []
    {
      items := [];
    }

    /** `param_set_find_tensor`. */
    method Find(id: nat) returns (k: int)
      ensures k == FindTensor(items, id)
    {
      for i := 0 to |items|
        invariant FindTensor(items[..i], id) == -1
      {
        assert items[..i + 1][..i] == items[..i];
        if items[i].id == id {
          FoundAt(items, i, id);
          return i;
        }
      }
      assert items[..|items|] == items;
      k := -1;
    }

    /** `param_set_add`; false stands for an exceeded capacity. */
    method AddParam(v: Visit, groups: seq<Group>) returns (ok: bool)
      requires Within(items)
      modifies `items
      ensures ok <==> Within(Add(old(items), v, groups))
      ensures ok ==> items == Add(old(items), v, groups)
    {
      var existing := Find(v.id);
      if existing >= 0 {
        if |items[existing].aliases| >= MAX_ALIASES {
          AliasFull(items, v, groups, existing);
          return false;
        }
        items := items[existing := items[existing].(aliases := items[existing].aliases + [v.path])];
        return true;
      }
      if |items| >= MAX_PARAMS {
        return false;
      }
      var group := MatchGroup(v.path, groups);
      items := items + [Collected(v.path, [], v.id, group)];
      ok := true;
    }

    /** The loop over the parameters of one module. */
    method AddParams(m: Module, path: string, groups: seq<Group>) returns (ok: bool)
      requires Within(items)
      modifies `items
      ensures ok <==> Within(AddAll(old(items), ParamVisits(m, path, |m.params|), groups))
      ensures ok ==> items == AddAll(old(items), ParamVisits(m, path, |m.params|), groups)
    {
      for i := 0 to |m.params|
        invariant Within(items) && items == AddAll(old(items), ParamVisits(m, path, i), groups)
      {
        var p := m.params[i];
        if p.tensor.trainable {
          var v := Visit(Join(path, p.name), p.tensor.id);
          AddAllAppend(old(items), ParamVisits(m, path, i), [v], groups);
          AddAllOne(items, v, groups);
          ok := AddParam(v, groups);
          if !ok {
            TooManyParams(old(items), m, path, i + 1, groups);
            return;
          }
        }
      }
      ok := true;
    }

    /** `collect_module_params_rec`. */
    method Collect(m: Module, path: string, groups: seq<Group>) returns (ok: bool)
      requires Within(items)
      modifies `items
      ensures ok <==> Within(AddAll(old(items), Visits(m, path), groups))
      ensures ok ==> items == AddAll(old(items), Visits(m, path), groups)
      decreases m, 2
    {
      ghost var mine, others := ParamVisits(m, path, |m.params|), ChildVisits(m, path, |m.children|);
      AddAllAppend(items, mine, others, groups);
      AddAllGrows(AddAll(items, mine, groups), others, groups);
      ok := AddParams(m, path, groups);
      if ok {
        ok := CollectChildren(m, path, groups);
      }
    }

    /** The set holds what the first `i` children add to `start`. */
    ghost predicate ChildrenDone(start: seq<Collected>, m: Module, path: string, i: nat, groups: seq<Group>)
      requires i <= |m.children|
      reads `items
    {
      Within(items) && items == AddAll(start, ChildVisits(m, path, i), groups)
    }

    /** One child. */
    method CollectChild(m: Module, path: string, i: nat, groups: seq<Group>, ghost start: seq<Collected>)
      returns (ok: bool)
      requires i < |m.children| && ChildrenDone(start, m, path, i, groups)
      modifies `items
      ensures ok ==> ChildrenDone(start, m, path, i + 1, groups)
      ensures !ok ==> !Within(AddAll(start, ChildVisits(m, path, |m.children|), groups))
      decreases m, 0
    {
      var c := m.children[i];
      NextChild(start, m, path, i, groups);
      ok := Collect(c.child, Join(path, c.name), groups);
      if !ok {
        TooManyChildren(start, m, path, i + 1, groups);
      }
    }

    /** The loop over the children. */
    method CollectChildren(m: Module, path: string, groups: seq<Group>) returns (ok: bool)
      requires Within(items)
      modifies `items
      ensures ok <==> Within(AddAll(old(items), ChildVisits(m, path, |m.children|), groups))
      ensures ok ==> items == AddAll(old(items), ChildVisits(m, path, |m.children|), groups)
      decreases m, 1
    {
      ghost var start := items;
      for i := 0 to |m.children|
        invariant ChildrenDone(start, m, path, i, groups)
      {
        ok := CollectChild(m, path, i, groups, start);
        if !ok {
          return;
        }
      }
      ok := true;
    }
  }

  /** `match_group`. */
  method MatchGroup(path: string, groups: seq<Group>) returns (g: Option<Group>)
    ensures g == FirstGroup(path, groups)
  {
    assert groups[0..] == groups;
    for i := 0 to |groups|
      invariant FirstGroup(path, groups[i..]) == FirstGroup(path, groups)
    {
      assert groups[i..][1..] == groups[i + 1..];
      var here := GlobMatchHere(groups[i].pattern, path);
      if here {
        return Some(groups[i]);
      }
    }
    g := None;
  }

  lemma {:induction false} FoundAt(items: seq<Collected>, i: nat, id: nat)
    requires i < |items| && items[i].id == id && FindTensor(items[..i], id) == -1
    ensures FindTensor(items, id) == i
  {
    var k := FindTensor(items, id);
    assert forall j :: 0 <= j < i ==> items[..i][j] == items[j];
  }

  lemma {:induction false} AliasFull(items: seq<Collected>, v: Visit, groups: seq<Group>, k: nat)
    requires FindTensor(items, v.id) == k && |items[k].aliases| >= MAX_ALIASES
    ensures !Within(Add(items, v, groups))
  {
    assert |Add(items, v, groups)[k].aliases| > MAX_ALIASES;
  }

  lemma {:induction false} AddAllOne(items: seq<Collected>, v: Visit, groups: seq<Group>)
    ensures AddAll(items, [v], groups) == Add(items, v, groups)
  {
    assert [v][..0] == [];
  }

  lemma {:induction false} TooManyParams(items: seq<Collected>, m: Module, path: string, n: nat, groups: seq<Group>)
    requires n <= |m.params| && !Within(AddAll(items, ParamVisits(m, path, n), groups))
    ensures !Within(AddAll(items, ParamVisits(m, path, |m.params|), groups))
    decreases |m.params| - n
  {
    if n < |m.params| {
      var p := m.params[n];
      if p.tensor.trainable {
        var v := Visit(Join(path, p.name), p.tensor.id);
        AddAllAppend(items, ParamVisits(m, path, n), [v], groups);
        AddAllGrows(AddAll(items, ParamVisits(m, path, n), groups), [v], groups);
      }
      TooManyParams(items, m, path, n + 1, groups);
    }
  }

  lemma {:induction false} NextChild(items: seq<Collected>, m: Module, path: string, i: nat, groups: seq<Group>)
    requires i < |m.children|
    ensures AddAll(items, ChildVisits(m, path, i + 1), groups)
            == AddAll(AddAll(items, ChildVisits(m, path, i), groups),
              Visits(m.children[i].child, Join(path, m.children[i].name)), groups)
  {
    AddAllAppend(items, ChildVisits(m, path, i), Visits(m.children[i].child, Join(path, m.children[i].name)), groups);
  }

  lemma {:induction false} TooManyChildren(items: seq<Collected>, m: Module, path: string, n: nat, groups: seq<Group>)
    requires n <= |m.children| && !Within(AddAll(items, ChildVisits(m, path, n), groups))
    ensures !Within(AddAll(items, ChildVisits(m, path, |m.children|), groups))
    decreases |m.children| - n
  {
    if n < |m.children| {
      var more := Visits(m.children[n].child, Join(path, m.children[n].name));
      AddAllAppend(items, ChildVisits(m, path, n), more, groups);
      AddAllGrows(AddAll(items, ChildVisits(m, path, n), groups), more, groups);
      TooManyChildren(items, m, path, n + 1, groups);
    }
  }

  // ---------- what has been collected ----------

  /** All paths under which a tensor was met, in order. */
  function PathsOf(vs: seq<Visit>, id: nat): seq<string> {
    if vs == [] then []
    else PathsOf(vs[..|vs| - 1], id) + (if vs[|vs| - 1].id == id then [vs[|vs| - 1].path] else [])
  }

  /** The tensors met, each once, in the order of their first path. */
  function FirstSeen(vs: seq<Visit>): seq<nat> {
    if vs == [] then []
    else
      var before, id := FirstSeen(vs[..|vs| - 1]), vs[|vs| - 1].id;
      if id in before then before else before + [id]
  }

  /** What an item must say of its tensor. */
  ghost predicate Describes(item: Collected, vs: seq<Visit>, groups: seq<Group>) {
    && [item.path] + item.aliases == PathsOf(vs, item.id)
    && item.group == FirstGroup(item.path, groups)
  }

  ghost predicate Describe(items: seq<Collected>, vs: seq<Visit>, groups: seq<Group>) {
    && |items| == |FirstSeen(vs)|
    && forall i :: 0 <= i < |items| ==> items[i].id == FirstSeen(vs)[i] && Describes(items[i], vs, groups)
  }

  /** Group `i` is the first whose pattern, with texts in place of its stars, gives the path. */
  ghost predicate FirstMeaning(path: string, groups: seq<Group>, i: nat) {
    && i < |groups| && Means(groups[i].pattern, path)
    && forall j :: 0 <= j < i ==> !Means(groups[j].pattern, path)
  }

  /** The group of a path is the first one whose pattern means it, and there is none only when no pattern
      does. */
  lemma {:induction false} FirstGroupExact(path: string, groups: seq<Group>, i: nat)
    ensures FirstMeaning(path, groups, i) ==> FirstGroup(path, groups) == Some(groups[i])
    ensures FirstGroup(path, groups) == None <==> forall j :: 0 <= j < |groups| ==> !Means(groups[j].pattern, path)
  {
    if groups != [] {
      GlobExact(groups[0].pattern, path);
      FirstGroupExact(path, groups[1..], if i > 0 then i - 1 else 0);
      if FirstMeaning(path, groups, i) && i > 0 {
        assert !Means(groups[0].pattern, path);
        forall j | 0 <= j < i - 1
          ensures !Means(groups[1..][j].pattern, path)
        {
          assert groups[1..][j] == groups[j + 1];
        }
      }
      assert forall j :: 0 < j < |groups| ==> groups[j] == groups[1..][j - 1];
    }
  }

  lemma {:induction false} SeenDistinct(vs: seq<Visit>)
    ensures Once(FirstSeen(vs))
    ensures forall id :: id in FirstSeen(vs) <==> PathsOf(vs, id) != []
  {
    if vs != [] {
      var before, id := FirstSeen(vs[..|vs| - 1]), vs[|vs| - 1].id;
      SeenDistinct(vs[..|vs| - 1]);
      if id !in before {
        OnceSnoc(before, id);
      }
    }
  }

  ghost predicate Once(s: seq<nat>) {
    forall i, j :: 0 <= i < j < |s| ==> s[i] != s[j]
  }

  lemma {:induction false} OnceSnoc(s: seq<nat>, x: nat)
    requires Once(s) && x !in s
    ensures Once(s + [x])
  {
  }

  /** Each distinct tensor is collected exactly once, in the order of its first path; the later paths
      become aliases in the order they are met; and its group is the first that matches the first path. */
  lemma {:induction false} CollectExact(vs: seq<Visit>, groups: seq<Group>)
    ensures Describe(AddAll([], vs, groups), vs, groups)
  {
    if vs != [] {
      var init, v := vs[..|vs| - 1], vs[|vs| - 1];
      CollectExact(init, groups);
      DescribeStep(AddAll([], init, groups), init, v, groups);
      assert init + [v] == vs;
    }
  }

  lemma {:induction false} VisitSnoc(vs: seq<Visit>, v: Visit, id: nat)
    ensures PathsOf(vs + [v], id) == PathsOf(vs, id) + (if v.id == id then [v.path] else [])
    ensures FirstSeen(vs + [v]) == if v.id in FirstSeen(vs) then FirstSeen(vs) else FirstSeen(vs) + [v.id]
  {
    assert (vs + [v])[..|vs|] == vs;
  }

  lemma {:induction false} DescribeStep(items: seq<Collected>, vs: seq<Visit>, v: Visit, groups: seq<Group>)
    requires Describe(items, vs, groups)
    ensures Describe(Add(items, v, groups), vs + [v], groups)
  {
    var k, next, seen := FindTensor(items, v.id), Add(items, v, groups), FirstSeen(vs);
    SeenDistinct(vs);
    VisitSnoc(vs, v, v.id);
    if k >= 0 {
      assert v.id == seen[k] && v.id in seen;
    } else {
      forall i | 0 <= i < |seen|
        ensures seen[i] != v.id
      {
        assert items[i].id == seen[i];
      }
    }
    forall i | 0 <= i < |next|
      ensures next[i].id == FirstSeen(vs + [v])[i] && Describes(next[i], vs + [v], groups)
    {
      VisitSnoc(vs, v, next[i].id);
      if i < |items| && i != k {
        assert next[i] == items[i] && items[i].id == seen[i] && Describes(items[i], vs, groups);
      } else if i == k {
        assert Describes(items[k], vs, groups);
        assert [next[k].path] + next[k].aliases == [items[k].path] + items[k].aliases + [v.path];
      }
    }
  }

  /** `collect_module_params` on a root module; false stands for an exceeded capacity. */
  method CollectModuleParams(root: Module, name: string, groups: seq<Group>) returns (items: seq<Collected>, ok: bool)
    ensures ok <==> Within(AddAll([], Visits(root, name), groups))
    ensures ok ==> Describe(items, Visits(root, name), groups)
  {
    var collected := new ParamSet();
    ok := collected.Collect(root, name, groups);
    items := collected.items;
    CollectExact(Visits(root, name), groups);
  }
}
