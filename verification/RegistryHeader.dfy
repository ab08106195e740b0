/** The whole generated header read back: which ids it assigns. */
module RegistryHeader {
  import opened Seqs
  import opened Decimal
  import opened RegistryText

  /** A line that one `fgets` takes whole. */
  ghost predicate OneLine(l: string) {
    0 < |l| < LINE_MAX && l[|l| - 1] == '\n' && Without(l[..|l| - 1], '\n')
  }

  lemma {:induction false} WithoutTail(s: string, c: char)
    requires Without(s, c) && s != []
    ensures Without(s[1..], c)
  {
    forall i | 0 <= i < |s| - 1
      ensures s[1..][i] != c
    {
      assert s[1..][i] == s[i + 1];
    }
  }

  lemma {:induction false} TakesLine(l: string, rest: string, room: nat)
    requires 0 < |l| <= room && l[|l| - 1] == '\n' && Without(l[..|l| - 1], '\n')
    ensures ChunkLen(l + rest, room) == |l|
  {
    assert (l + rest)[0] == l[0];
    if |l| > 1 {
      assert l[0] == l[..|l| - 1][0] != '\n';
      assert (l + rest)[1..] == l[1..] + rest;
      var body := l[..|l| - 1];
      WithoutTail(body, '\n');
      assert l[1..][..|l[1..]| - 1] == body[1..];
      TakesLine(l[1..], rest, room - 1);
    }
  }

  function PerLine(ls: seq<string>): (r: seq<seq<Entry>>)
    ensures |r| == |ls| && forall i :: 0 <= i < |r| ==> r[i] == LineEntries(ls[i])
  {
    seq(|ls|, i requires 0 <= i < |ls| => LineEntries(ls[i]))
  }

  function EntriesOf(ls: seq<string>): seq<Entry> {
    Flatten(PerLine(ls))
  }

  lemma {:induction false} EntriesAppend(a: seq<string>, b: seq<string>)
    ensures EntriesOf(a + b) == EntriesOf(a) + EntriesOf(b)
  {
    assert PerLine(a + b) == PerLine(a) + PerLine(b);
    FlattenAppend(PerLine(a), PerLine(b));
  }

  lemma {:induction false} EntriesSnoc(ls: seq<string>, l: string)
    ensures EntriesOf(ls + [l]) == EntriesOf(ls) + LineEntries(l)
  {
    assert PerLine(ls + [l]) == PerLine(ls) + [LineEntries(l)];
    FlattenSnoc(PerLine(ls), LineEntries(l));
  }

  lemma {:induction false} FirstLineRead(l: string, rest: string)
    requires OneLine(l)
    ensures TextEntries(l + rest) == LineEntries(l) + TextEntries(rest)
  {
    TakesLine(l, rest, LINE_MAX - 1);
    assert (l + rest)[..|l|] == l && (l + rest)[|l|..] == rest;
    assert ChunkEntries(l + rest) == LineEntries(l) + TextEntries(rest);
  }

  ghost predicate AllLines(ls: seq<string>) {
    forall i :: 0 <= i < |ls| ==> OneLine(ls[i])
  }

  /** Reading a text made of lines reads the lines. */
  lemma {:induction false} LinesRead(ls: seq<string>, rest: string)
    requires AllLines(ls)
    ensures TextEntries(Flatten(ls) + rest) == EntriesOf(ls) + TextEntries(rest)
  {
    if ls == [] {
      assert Flatten(ls) + rest == rest;
      assert EntriesOf(ls) == [];
    } else {
      LinesRead(ls[..|ls| - 1], ls[|ls| - 1] + rest);
      LinesReadStep(ls[..|ls| - 1], ls[|ls| - 1], rest);
      assert ls[..|ls| - 1] + [ls[|ls| - 1]] == ls;
    }
  }

  lemma {:induction false} LinesReadStep(ls: seq<string>, l: string, rest: string)
    requires OneLine(l) && TextEntries(Flatten(ls) + (l + rest)) == EntriesOf(ls) + TextEntries(l + rest)
    ensures TextEntries(Flatten(ls + [l]) + rest) == EntriesOf(ls + [l]) + TextEntries(rest)
  {
    Regroup(ls, l, rest);
    FirstLineRead(l, rest);
    EntriesSnoc(ls, l);
    Assoc(EntriesOf(ls), LineEntries(l), TextEntries(rest));
  }

  lemma {:induction false} Regroup<T>(ls: seq<seq<T>>, l: seq<T>, rest: seq<T>)
    ensures Flatten(ls + [l]) + rest == Flatten(ls) + (l + rest)
  {
    FlattenSnoc(ls, l);
  }

  /** The entries of the first operations. */
  function OpEntries(names: seq<string>): (r: seq<Entry>)
    ensures |r| == |names| && forall i :: 0 <= i < |r| ==> r[i] == Entry(names[i], i + 1)
  {
    seq(|names|, i requires 0 <= i < |names| => Entry(names[i], i + 1))
  }

  ghost predicate AllValid(names: seq<string>) {
    forall i :: 0 <= i < |names| ==> ValidName(names[i])
  }

  lemma {:induction false} DigitsShort(n: nat)
    requires n <= UINT32_MAX
    ensures |Digits(n)| <= 10
  {
    assert Pow10(3) == 1000;
    assert Pow10(6) == 1000 * Pow10(3) by { assert Pow10(5) == 100 * Pow10(3); }
    assert Pow10(9) == 1000 * Pow10(6) by { assert Pow10(8) == 100 * Pow10(6); }
    assert Pow10(10) == 10 * Pow10(9);
    PaddedIsFixed(n, 10);
  }

  lemma {:induction false} CommaEnds(x: string)
    requires Without(x, '\n') && |x| + 2 < LINE_MAX
    ensures OneLine(x + ",\n")
  {
    var l := x + ",\n";
    assert l[..|l| - 1] == x + ",";
  }

  lemma {:induction false} OpLineIsLine(name: string, id: nat)
    requires ValidName(name) && id <= UINT32_MAX
    ensures OneLine(OpLine(name, id))
  {
    DigitsShort(id);
    DigitsWithout(id, '\n');
    CaseRoundTrip(name);
    var body := "    GD_OP_" + ToUpper(name) + " = " + Digits(id);
    assert Without("    GD_OP_", '\n') && Without(" = ", '\n');
    CommaEnds(body);
  }

  lemma {:induction false} OpLinesInit(names: seq<string>, n: nat)
    requires n <= |names|
    ensures OpLines(names)[..n] == OpLines(names[..n]) && OpEntries(names)[..n] == OpEntries(names[..n])
  {
    forall i | 0 <= i < n
      ensures OpLines(names)[..n][i] == OpLines(names[..n])[i]
    {
      assert names[..n][i] == names[i];
    }
  }

  lemma {:induction false} OpEntriesSnoc(names: seq<string>)
    requires names != []
    ensures OpEntries(names) == OpEntries(names[..|names| - 1]) + [Entry(names[|names| - 1], |names|)]
  {
    assert OpEntries(names)[|names| - 1] == Entry(names[|names| - 1], |names|);
  }

  lemma {:induction false} OpLinesRead(names: seq<string>)
    requires AllValid(names) && |names| <= UINT32_MAX
    ensures EntriesOf(OpLines(names)) == OpEntries(names)
  {
    if names != [] {
      var n := |names|;
      OpLinesRead(names[..n - 1]);
      OpLinesInit(names, n - 1);
      OpLineEntries(names[n - 1], n);
      OpEntriesSnoc(names);
      EntriesSnoc(OpLines(names)[..n - 1], OpLines(names)[n - 1]);
      assert OpLines(names) == OpLines(names)[..n - 1] + [OpLines(names)[n - 1]];
    }
  }

  const GUARD: Entry := Entry("kind_h", 0)

  lemma {:induction false} GuardToken(token: string)
    requires token == "KIND_H"
    ensures "GD_OP_KIND_H" == MARK + token && ToLower(token) == "kind_h"
    ensures 0 < |token| < NAME_MAX && forall i :: 0 <= i < |token| ==> TokenChar(token[i])
  {
  }

  lemma {:induction false} GuardEntries(l: string, a: string, token: string, rest: string)
    requires Without(a, 'G') && Without(rest, 'G') && Without(rest, '=') && rest != [] && !TokenChar(rest[0])
    requires token == "KIND_H" && l == a + MARK + (token + rest)
    ensures LineEntries(l) == [GUARD]
  {
    GuardToken(token);
    OneEntry(a, token, rest);
    NoAfter(rest, '=');
  }

  lemma {:induction false} ThreeLines(o: seq<string>)
    requires |o| == 3
    ensures EntriesOf(o) == LineEntries(o[0]) + LineEntries(o[1]) + LineEntries(o[2])
  {
    assert o == [] + [o[0]] + [o[1]] + [o[2]];
    EntriesSnoc([], o[0]);
    EntriesSnoc([] + [o[0]], o[1]);
    EntriesSnoc([] + [o[0]] + [o[1]], o[2]);
  }

  /** A line without a mark. */
  ghost predicate Plain(l: string) {
    OneLine(l) && Without(l, 'G')
  }

  /** An include guard line. */
  ghost predicate Guard(l: string) {
    exists a, rest :: l == a + "GD_OP_KIND_H" + rest && GuardParts(a, rest) && OneLine(l)
  }

  ghost predicate GuardParts(a: string, rest: string) {
    Without(a, 'G') && Without(rest, 'G') && Without(rest, '=') && rest != [] && !TokenChar(rest[0])
  }

  ghost predicate Opens(o: seq<string>) {
    |o| == 6 && Guard(o[0]) && Guard(o[1]) && Plain(o[2]) && Plain(o[3]) && Plain(o[4]) && o[5] == OpLine("invalid", 0)
  }

  ghost predicate Closes(c: seq<string>) {
    |c| == 3 && Plain(c[0]) && Plain(c[1]) && Guard(c[2])
  }

  lemma {:induction false} PlainRead(l: string)
    requires Plain(l)
    ensures LineEntries(l) == []
  {
    NoMark(l);
  }

  lemma {:induction false} GuardRead(l: string)
    requires Guard(l)
    ensures LineEntries(l) == [GUARD]
  {
    var a, rest :| l == a + "GD_OP_KIND_H" + rest && GuardParts(a, rest);
    var token := "KIND_H";
    GuardToken(token);
    assert l == a + MARK + (token + rest);
    GuardEntries(l, a, token, rest);
  }

  /** The two entries of the enumeration that are no operations. */
  lemma {:induction false} OtherEntry(name: string, id: nat)
    requires (name == "invalid" || name == "count") && id <= UINT32_MAX
    ensures LineEntries(OpLine(name, id)) == [Entry(name, id)] && OneLine(OpLine(name, id))
  {
    assert ValidName(name);
    OpLineEntries(name, id);
    OpLineIsLine(name, id);
  }

  lemma {:induction false} GuardsRead(o: seq<string>)
    requires |o| == 3 && Guard(o[0]) && Guard(o[1]) && Plain(o[2])
    ensures EntriesOf(o) == [GUARD, GUARD]
  {
    GuardRead(o[0]);
    GuardRead(o[1]);
    PlainRead(o[2]);
    ThreeLines(o);
  }

  lemma {:induction false} InvalidRead(o: seq<string>)
    requires |o| == 3 && Plain(o[0]) && Plain(o[1]) && o[2] == OpLine("invalid", 0)
    ensures EntriesOf(o) == [Entry("invalid", 0)] && OneLine(o[2])
  {
    PlainRead(o[0]);
    PlainRead(o[1]);
    OtherEntry("invalid", 0);
    ThreeLines(o);
  }

  lemma {:induction false} OpeningLines(o: seq<string>)
    requires Opens(o)
    ensures AllLines(o)
  {
    OtherEntry("invalid", 0);
  }

  lemma {:induction false} OpeningRead(o: seq<string>)
    requires Opens(o)
    ensures EntriesOf(o) == [GUARD, GUARD, Entry("invalid", 0)]
  {
    var a, b := o[..3], o[3..];
    OpeningHalves(a, b);
    EntriesAppend(a, b);
    assert o == a + b;
  }

  lemma {:induction false} OpeningHalves(a: seq<string>, b: seq<string>)
    requires Opens(a + b) && |a| == 3 && |b| == 3
    ensures EntriesOf(a) == [GUARD, GUARD] && EntriesOf(b) == [Entry("invalid", 0)]
  {
    var o := a + b;
    assert a[0] == o[0] && a[1] == o[1] && a[2] == o[2];
    assert b[0] == o[3] && b[1] == o[4] && b[2] == o[5];
    GuardsRead(a);
    InvalidRead(b);
  }

  lemma {:induction false} ClosingLines(c: seq<string>)
    requires Closes(c)
    ensures AllLines(c)
  {
  }

  lemma {:induction false} ClosingRead(c: seq<string>)
    requires Closes(c)
    ensures EntriesOf(c) == [GUARD]
  {
    PlainRead(c[0]);
    PlainRead(c[1]);
    GuardRead(c[2]);
    ThreeLines(c);
  }

  // ---------- the fixed lines ----------

  lemma {:induction false} GuardLine(l: string, a: string, rest: string)
    requires l == a + "GD_OP_KIND_H" + rest && GuardParts(a, rest)
    requires Without(a, '\n') && Without(rest[..|rest| - 1], '\n') && rest[|rest| - 1] == '\n' && |l| < LINE_MAX
    ensures Guard(l)
  {
    assert Without("GD_OP_KIND_H", '\n');
    assert l[..|l| - 1] == a + "GD_OP_KIND_H" + rest[..|rest| - 1];
  }

  lemma {:induction false} IfndefLine()
    ensures Guard(OPENING[0])
  {
    GuardLine(OPENING[0], "#ifndef ", "\n");
  }

  lemma {:induction false} DefineLine()
    ensures Guard(OPENING[1])
  {
    GuardLine(OPENING[1], "#define ", "\n");
  }

  lemma {:induction false} EmptyLine()
    ensures Plain(OPENING[2])
  {
  }

  lemma {:induction false} CommentLine()
    ensures Plain(OPENING[3])
  {
    var a, b := "/* @generated by tools/", "gen_ops.c; do not edit. */";
    CommentStart(a);
    CommentEnd(b);
    assert OPENING[3] == a + b + "\n";
    assert OPENING[3][..|OPENING[3]| - 1] == a + b;
  }

  lemma {:induction false} CommentStart(a: string)
    requires a == "/* @generated by tools/"
    ensures Without(a, 'G') && Without(a, '\n')
  {
  }

  lemma {:induction false} CommentEnd(b: string)
    requires b == "gen_ops.c; do not edit. */"
    ensures Without(b, 'G') && Without(b, '\n')
  {
  }

  lemma {:induction false} EnumLine()
    ensures Plain(OPENING[4])
  {
  }

  lemma {:induction false} InvalidLine()
    ensures OPENING[5] == OpLine("invalid", 0)
  {
    assert ToUpper("invalid") == "INVALID";
  }

  lemma {:induction false} EndifLine()
    ensures Guard(CLOSING[2])
  {
    GuardLine(CLOSING[2], "#endif /* ", " */\n");
  }

  lemma {:induction false} FixedLines()
    ensures Opens(OPENING) && Closes(CLOSING)
  {
    IfndefLine();
    DefineLine();
    EmptyLine();
    CommentLine();
    EnumLine();
    InvalidLine();
    EndifLine();
  }

  // ---------- all of it ----------

  lemma {:induction false} OpLinesAreLines(names: seq<string>)
    requires AllValid(names) && |names| < UINT32_MAX
    ensures AllLines(OpLines(names))
  {
    forall i | 0 <= i < |names|
      ensures OneLine(OpLines(names)[i])
    {
      OpLineIsLine(names[i], i + 1);
    }
  }

  lemma {:induction false} PartsRead(opening: seq<string>, ops: seq<string>, l: string, closing: seq<string>)
    requires AllLines(opening) && AllLines(ops) && OneLine(l) && AllLines(closing)
    ensures TextEntries(Flatten(opening) + Flatten(ops) + l + Flatten(closing))
            == EntriesOf(opening) + EntriesOf(ops) + LineEntries(l) + EntriesOf(closing)
  {
    var t := Flatten(closing);
    Assoc(Flatten(opening) + Flatten(ops), l, t);
    Assoc(Flatten(opening), Flatten(ops), l + t);
    LinesRead(opening, Flatten(ops) + (l + t));
    LinesRead(ops, l + t);
    FirstLineRead(l, t);
    AllRead(closing);
    Assoc(EntriesOf(opening) + EntriesOf(ops), LineEntries(l), EntriesOf(closing));
    Assoc(EntriesOf(opening), EntriesOf(ops), LineEntries(l) + EntriesOf(closing));
  }

  lemma {:induction false} AllRead(ls: seq<string>)
    requires AllLines(ls)
    ensures TextEntries(Flatten(ls)) == EntriesOf(ls)
  {
    LinesRead(ls, "");
    assert Flatten(ls) + "" == Flatten(ls);
  }

  /** What a header says when it assigns `names[0]`, `names[1]`, ... the ids 1, 2, ... */
  ghost predicate Says(text: string, names: seq<string>) {
    TextEntries(text) == [GUARD, GUARD, Entry("invalid", 0)] + OpEntries(names) + [Entry("count", |names| + 1)]
      + [GUARD]
  }

  lemma {:induction false} AroundReads(opening: seq<string>, names: seq<string>, closing: seq<string>)
    requires AllValid(names) && |names| < UINT32_MAX && Opens(opening) && Closes(closing)
    ensures Says(HeaderAround(opening, names, closing), names)
  {
    OpeningLines(opening);
    OpeningRead(opening);
    ClosingRead(closing);
    ClosingLines(closing);
    OpLinesAreLines(names);
    OtherEntry("count", |names| + 1);
    PartsRead(opening, OpLines(names), OpLine("count", |names| + 1), closing);
    OpLinesRead(names);
  }

  /** The generated header says what it was generated for. */
  lemma {:induction false} HeaderReads(names: seq<string>)
    requires AllValid(names) && |names| < UINT32_MAX
    ensures Says(Header(names), names)
  {
    FixedLines();
    AroundReads(OPENING, names, CLOSING);
  }
}
