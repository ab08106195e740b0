/** The operation registry (`tools/gen_ops.c`): scanning, existing ids, numbering, rendering. */
module Registry {
  import opened Seqs
  import opened RegistryText
  import opened RegistryOrder

  const MAX_OPS: nat := 512

  predicate Reserved(name: string) { name == "invalid" || name == "count" }

  ghost predicate Distinct(names: seq<string>) {
    forall i, j :: 0 <= i < j < |names| ==> names[i] != names[j]
  }

  // ---------- what the steps compute ----------

  /** A directory entry of `src/ops`. */
  datatype DirEntry = DirEntry(name: string, isDir: bool, hasCore: bool, hasAutograd: bool) {
    predicate Candidate() { name != "" && name[0] != '.' && ValidName(name) && isDir }
    predicate IsOp() { Candidate() && (hasCore || hasAutograd) }
  }

  /** The operations among the entries, in scan order. */
  function OpsIn(entries: seq<DirEntry>): (r: seq<string>)
    ensures forall x :: x in r ==> ValidName(x)
  {
    if entries == [] then []
    else
      var e := entries[|entries| - 1];
      OpsIn(entries[..|entries| - 1]) + (if e.IsOp() then [e.name] else [])
  }

  /** A candidate is met when the table is full. */
  ghost predicate TooMany(entries: seq<DirEntry>) {
    exists k :: 0 <= k < |entries| && entries[k].Candidate() && |OpsIn(entries[..k])| >= MAX_OPS
  }

  function Fresh(names: seq<string>): (r: seq<Op>)
    ensures |r| == |names| && forall i :: 0 <= i < |r| ==> r[i] == Op(names[i], 0, 0)
  {
    seq(|names|, i requires 0 <= i < |names| => Op(names[i], 0, 0))
  }

  function Names(ops: seq<Op>): (r: seq<string>)
    ensures |r| == |ops| && forall i :: 0 <= i < |r| ==> r[i] == ops[i].name
  {
    seq(|ops|, i requires 0 <= i < |ops| => ops[i].name)
  }

  predicate Sets(e: Entry, name: string) { e.name == name && !Reserved(name) && e.id != 0 }

  /** The id a header gives a name: the last one it states. */
  function LastId(entries: seq<Entry>, name: string, before: nat): nat {
    if entries == [] then before
    else
      var e := entries[|entries| - 1];
      if Sets(e, name) then e.id else LastId(entries[..|entries| - 1], name, before)
  }

  function Applied(ops: seq<Op>, entries: seq<Entry>): (r: seq<Op>)
    ensures |r| == |ops|
    ensures forall i :: 0 <= i < |r| ==> r[i] == ops[i].(oldId := LastId(entries, ops[i].name, ops[i].oldId))
  {
    seq(|ops|, i requires 0 <= i < |ops| => ops[i].(oldId := LastId(entries, ops[i].name, ops[i].oldId)))
  }

  function Numbered(ops: seq<Op>): (r: seq<Op>)
    ensures |r| == |ops| && forall i :: 0 <= i < |r| ==> r[i] == ops[i].(newId := i + 1)
  {
    seq(|ops|, i requires 0 <= i < |ops| => ops[i].(newId := i + 1))
  }

  /** The operations in id order, for a scan and an existing header. */
  function Order(text: string, scan: seq<string>): (r: seq<string>) {
    Names(SortOps(Applied(Fresh(scan), TextEntries(text))))
  }

  // ---------- lemmas for the loops ----------

  lemma {:induction false} LastIdAppend(a: seq<Entry>, b: seq<Entry>, name: string, before: nat)
    ensures LastId(a + b, name, before) == LastId(b, name, LastId(a, name, before))
  {
    if b == [] {
      assert a + b == a;
    } else {
      assert (a + b)[..|a + b| - 1] == a + b[..|b| - 1];
      LastIdAppend(a, b[..|b| - 1], name, before);
    }
  }

  lemma {:induction false} AppliedAppend(ops: seq<Op>, a: seq<Entry>, b: seq<Entry>)
    ensures Applied(ops, a + b) == Applied(Applied(ops, a), b)
  {
    forall i | 0 <= i < |ops|
      ensures Applied(ops, a + b)[i] == Applied(Applied(ops, a), b)[i]
    {
      LastIdAppend(a, b, ops[i].name, ops[i].oldId);
    }
  }

  lemma {:induction false} AppliedNone(ops: seq<Op>)
    ensures Applied(ops, []) == ops
  {
  }

  lemma {:induction false} AppliedOne(ops: seq<Op>, e: Entry, k: int)
    requires DistinctNames(ops) && -1 <= k < |ops| && (k >= 0 ==> ops[k].name == e.name)
    requires k < 0 ==> forall i :: 0 <= i < |ops| ==> ops[i].name != e.name
    ensures Applied(ops, [e]) == if k >= 0 && Sets(e, e.name) then ops[k := ops[k].(oldId := e.id)] else ops
  {
    forall i | 0 <= i < |ops|
      ensures LastId([e], ops[i].name, ops[i].oldId) == if Sets(e, ops[i].name) then e.id else ops[i].oldId
    {
      assert [e][..0] == [];
    }
    forall i | 0 <= i < |ops| && ops[i].name == e.name
      ensures i == k
    {
    }
  }

  /** `done` are the entries of the line before `rest`. */
  ghost predicate SoFar(done: seq<Entry>, rest: string, line: string) {
    done + LineEntries(rest) == LineEntries(line)
  }

  lemma {:induction false} NextToken(done: seq<Entry>, rest: string, q: string, line: string)
    requires SoFar(done, rest, line) && AfterMark(rest) == Some(q)
    ensures SoFar(done + TokenEntry(q), q[TokenLen(q, NAME_MAX - 1)..], line)
  {
    TokenFirst(rest, q);
    Assoc(done, TokenEntry(q), LineEntries(q[TokenLen(q, NAME_MAX - 1)..]));
  }

  lemma {:induction false} TokenFirst(rest: string, q: string)
    requires AfterMark(rest) == Some(q)
    ensures LineEntries(rest) == TokenEntry(q) + LineEntries(q[TokenLen(q, NAME_MAX - 1)..])
  {
  }

  lemma {:induction false} NoMoreTokens(done: seq<Entry>, rest: string, line: string)
    requires SoFar(done, rest, line) && AfterMark(rest) == None
    ensures done == LineEntries(line)
  {
    assert LineEntries(rest) == [];
  }

  ghost function FirstLines(names: seq<string>, n: nat): string
    requires n <= |names|
  {
    Flatten(OpLines(names)[..n])
  }

  lemma {:induction false} NextLine(text: string, names: seq<string>, i: nat)
    requires i < |names|
    ensures text + FirstLines(names, i) + OpLine(names[i], i + 1) == text + FirstLines(names, i + 1)
  {
    var ls := OpLines(names);
    assert ls[..i + 1] == ls[..i] + [ls[i]];
    FlattenSnoc(ls[..i], ls[i]);
  }

  lemma {:induction false} LastLine(names: seq<string>)
    ensures FirstLines(names, |names|) == Flatten(OpLines(names))
  {
    assert OpLines(names)[..|names|] == OpLines(names);
  }

  lemma {:induction false} ScanStep(entries: seq<DirEntry>, i: nat)
    requires i < |entries|
    ensures Fresh(OpsIn(entries[..i + 1]))
            == Fresh(OpsIn(entries[..i])) + (if entries[i].IsOp() then [Op(entries[i].name, 0, 0)] else [])
  {
    assert entries[..i + 1][..i] == entries[..i];
  }

  // ---------- the program ----------

  class Table {
    var items: seq<Op>

    ghost predicate Valid()
      reads `items
    {
      DistinctNames(items)
    }

    constructor ()
      ensures items == []
    {
      items := [];
    }

    /** `gd_find_op`. */
    method FindOp(name: string) returns (k: int)
      ensures -1 <= k < |items| && (k >= 0 ==> items[k].name == name)
      ensures k < 0 ==> forall i :: 0 <= i < |items| ==> items[i].name != name
    {
      for i := 0 to |items|
        invariant forall j :: 0 <= j < i ==> items[j].name != name
      {
        if items[i].name == name {
          return i;
        }
      }
      return -1;
    }

    /** `gd_scan_ops` on an empty table: an operation is added and taken back when it has no source
        file; false stands for too many operations. */
    method ScanOps(entries: seq<DirEntry>) returns (ok: bool)
      requires items == []
      modifies `items
      ensures ok <==> !TooMany(entries)
      ensures ok ==> items == Fresh(OpsIn(entries))
    {
      for i := 0 to |entries|
        invariant items == Fresh(OpsIn(entries[..i]))
        invariant forall k :: 0 <= k < i && entries[k].Candidate() ==> |OpsIn(entries[..k])| < MAX_OPS
      {
        var e := entries[i];
        ScanStep(entries, i);
        if e.name == "" || e.name[0] == '.' {
          continue;
        }
        var valid := ValidOpName(e.name);
        if !valid || !e.isDir {
          continue;
        }
        if |items| >= MAX_OPS {
          return false;
        }
        items := items + [Op(e.name, 0, 0)];
        if !e.hasCore && !e.hasAutograd {
          items := items[..|items| - 1];
        }
      }
      assert entries[..|entries|] == entries;
      ok := true;
    }

    /** `gd_apply_existing_order`: the ids of an existing header, one `fgets` at a time. */
    method ApplyExistingOrder(text: string)
      requires Valid()
      modifies `items
      ensures Valid() && items == Applied(old(items), TextEntries(text))
    {
      var rest := text;
      ghost var done: seq<Entry> := [];
      AppliedNone(items);
      while rest != ""
        invariant Valid() && items == Applied(old(items), done)
        invariant done + TextEntries(rest) == TextEntries(text)
        decreases |rest|
      {
        var n := ChunkLen(rest, LINE_MAX - 1);
        var line := rest[..n];
        ApplyLine(line);
        AppliedAppend(old(items), done, LineEntries(line));
        assert TextEntries(rest) == ChunkEntries(rest);
        assert done + (LineEntries(line) + TextEntries(rest[n..])) == done + LineEntries(line) + TextEntries(rest[n..]);
        done := done + LineEntries(line);
        rest := rest[n..];
      }
      assert done + [] == done;
    }

    /** The body of its loop. */
    method ApplyLine(line: string)
      requires Valid()
      modifies `items
      ensures Valid() && items == Applied(old(items), LineEntries(line))
    {
      var p := AfterMark(line);
      ghost var done: seq<Entry> := [];
      ghost var rest := line;
      AppliedNone(items);
      while p.Some?
        invariant Valid() && items == Applied(old(items), done)
        invariant SoFar(done, rest, line) && p == AfterMark(rest)
        decreases |rest|
      {
        var q := p.value;
        var n := TokenLen(q, NAME_MAX - 1);
        ApplyToken(q, n);
        AppliedAppend(old(items), done, TokenEntry(q));
        NextToken(done, rest, q, line);
        done := done + TokenEntry(q);
        rest := q[n..];
        p := AfterMark(q[n..]);
      }
      NoMoreTokens(done, rest, line);
    }

    /** The token of `n` characters at the front of `q`. */
    method ApplyToken(q: string, n: nat)
      requires Valid() && n == TokenLen(q, NAME_MAX - 1)
      modifies `items
      ensures Valid() && items == Applied(old(items), TokenEntry(q))
    {
      AppliedNone(items);
      if n > 0 {
        var lower := ToLower(q[..n]);
        ghost var e := Entry(lower, IdAfter(q[n..]));
        var k := FindOp(lower);
        AppliedOne(items, e, k);
        if lower != "invalid" && lower != "count" && k >= 0 {
          var value := IdAfter(q[n..]);
          if value != 0 {
            items := items[k := items[k].(oldId := value)];
          }
        }
      }
    }

    /** `gd_assign_new_ids`. */
    method AssignNewIds()
      requires Valid()
      modifies `items
      ensures items == Numbered(SortOps(old(items)))
    {
      items := SortOps(items);
      ghost var sorted := items;
      for i := 0 to |items|
        invariant |items| == |sorted|
        invariant forall j :: 0 <= j < i ==> items[j] == sorted[j].(newId := j + 1)
        invariant forall j :: i <= j < |items| ==> items[j] == sorted[j]
      {
        items := items[i := items[i].(newId := i + 1)];
      }
    }

    /** `gd_generate_op_kind`: the text of the header between its fixed lines. */
    method GenerateOpKind(opening: seq<string>, closing: seq<string>) returns (text: string)
      requires forall i :: 0 <= i < |items| ==> items[i].newId == i + 1
      ensures text == HeaderAround(opening, Names(items), closing)
    {
      text := Flatten(opening);
      ghost var names := Names(items);
      for i := 0 to |items|
        invariant text == Flatten(opening) + FirstLines(names, i)
      {
        NextLine(Flatten(opening), names, i);
        text := text + OpLine(items[i].name, items[i].newId);
      }
      LastLine(names);
      text := text + OpLine("count", |items| + 1) + Flatten(closing);
    }
  }

  /** The program up to `op_kind.h`, given the scan and the text of the existing header (empty when there
      is none). */
  method Regenerate(entries: seq<DirEntry>, existing: string) returns (ok: bool, text: string)
    requires Distinct(OpsIn(entries))
    ensures ok <==> !TooMany(entries)
    ensures ok ==> text == Header(Order(existing, OpsIn(entries)))
  {
    text := "";
    var table := new Table();
    ok := table.ScanOps(entries);
    if ok {
      table.ApplyExistingOrder(existing);
      table.AssignNewIds();
      text := table.GenerateOpKind(OPENING, CLOSING);
      assert Names(table.items) == Order(existing, OpsIn(entries));
    }
  }
}
