/** Configuration files as people write them, and what loading one gives. */
module ConfigRoundTrip {
  import opened Seqs
  import opened Ctype
  import opened ConfigScan
  import opened ConfigScalar
  import opened Config

  // ---------- lines as written ----------

  /** A line of a file: a setting, a line without content, or a document marker; each may carry a
      comment. */
  datatype Source =
    | Setting(indent: string, key: string, gap: string, lead: string, scalar: Scalar, trail: string,
      comment: Option<string>)
    | Blank(indent: string, comment: Option<string>)
    | Marker(indent: string, dots: bool, trail: string, comment: Option<string>)

  function CommentText(c: Option<string>): string {
    match c
    case None => []
    case Some(text) => ['#'] + text
  }

  function MarkerText(dots: bool): string { if dots then "..." else "---" }

  /** From the key to the scalar. */
  function Core(x: Source): string
    requires x.Setting?
  {
    (x.key + x.gap) + [':'] + (x.lead + ScalarText(x.scalar))
  }

  /** The line without its comment. */
  function Body(x: Source): string {
    match x
    case Setting(_, _, _, _, _, trail, _) => x.indent + Core(x) + trail
    case Blank(indent, _) => indent
    case Marker(indent, dots, trail, _) => indent + MarkerText(dots) + trail
  }

  function SourceText(x: Source): string {
    Body(x) + CommentText(x.comment)
  }

  /** White space where white space belongs, and a valid key; the comment, where there is one, begins at the first
      `#` outside quotes. */
  ghost predicate GoodForm(x: Source) {
    && AllSpace(x.indent)
    && (x.Setting? ==>
      && ValidKey(x.key) && AllSpace(x.gap) && AllSpace(x.lead) && AllSpace(x.trail) && ScalarOk(x.scalar)
      && Uncut(Body(x), x.comment))
    && (x.Marker? ==> AllSpace(x.trail))
  }

  ghost predicate Uncut(body: string, comment: Option<string>) {
    FindStop(body, Outside, '#') == None && (comment.Some? ==> StateAfter(body, Outside) == Outside)
  }

  /** A line of that form without a line break or a NUL inside. */
  ghost predicate SourceOk(x: Source) {
    && GoodForm(x)
    && '\n' !in SourceText(x) && '\0' !in SourceText(x) && ChopReturn(SourceText(x)) == SourceText(x)
  }

  type GoodSource = x: Source | SourceOk(x) witness Blank([], None)

  function Meaning(x: Source): LineResult {
    match x
    case Setting(_, key, _, _, scalar, _, _) => LineResult.Pair(key, ScalarValue(scalar))
    case _ => Skip
  }

  // ---------- one line ----------

  lemma {:induction false} SpaceIsNeutral(s: string, c: char)
    requires AllSpace(s) && !IsSpace(c)
    ensures Neutral(s, c)
  {
    assert !IsSpace('\'') && !IsSpace('"');
  }

  lemma {:induction false} KeyPasses(key: string, gap: string, c: char)
    requires ValidKey(key) && AllSpace(gap) && (c == '#' || c == ':')
    ensures Passes(key + gap, c)
  {
    SpaceIsNeutral(gap, c);
    forall i | 0 <= i < |key|
      ensures key[i] != c && key[i] != '\'' && key[i] != '"'
    {
      assert KeyChar(key[i]);
    }
    NeutralPasses(key, c);
    NeutralPasses(gap, c);
    PassesAppend(key, gap, c);
  }

  /** The comment, and only the comment, is cut off. */
  lemma {:induction false} StripIs(body: string, comment: Option<string>)
    requires Uncut(body, comment)
    ensures Strip(body + CommentText(comment)) == body
  {
    match comment
    case None =>
      assert body + [] == body;
    case Some(text) =>
      assert body + CommentText(comment) == body + ['#'] + text;
      StopsAfter(body, '#', text);
  }

  lemma {:induction false} SpacedPasses(front: string, body: string, back: string)
    requires AllSpace(front) && Passes(body, '#') && AllSpace(back)
    ensures Passes(front + body + back, '#')
  {
    SpaceIsNeutral(front, '#');
    SpaceIsNeutral(back, '#');
    NeutralPasses(front, '#');
    NeutralPasses(back, '#');
    PassesAppend(front, body, '#');
    PassesAppend(front + body, back, '#');
  }

  lemma {:induction false} CoreEnds(x: Source)
    requires x.Setting? && GoodForm(x)
    ensures var t := Core(x); t != [] && !IsSpace(t[0]) && !IsSpace(t[|t| - 1])
    ensures !IsMarker(Core(x), "---") && !IsMarker(Core(x), "...")
  {
    TextEnds(x.scalar);
    var t, k := Core(x), |x.key| + |x.gap|;
    assert t[0] == x.key[0] && KeyChar(x.key[0]);
    assert t[k] == ':' && !IsSpace(t[k]);
    NotAMarker(t, k, "---");
    NotAMarker(t, k, "...");
  }

  lemma {:induction false} NotAMarker(t: string, k: nat, marker: string)
    requires k < |t| && t[k] == ':' && ':' !in marker
    ensures !IsMarker(t, marker)
  {
    if IsMarker(t, marker) {
      MarkerHas(t, marker, k);
    }
  }

  lemma {:induction false} MarkerHas(t: string, marker: string, k: nat)
    requires IsMarker(t, marker) && k < |t|
    ensures t[k] in marker || IsSpace(t[k])
  {
    if k < |marker| {
      assert t[..|marker|][k] == t[k];
    } else {
      assert t[|marker|..][k - |marker|] == t[k];
    }
  }

  lemma {:induction false} KeyRead(key: string, gap: string)
    requires ValidKey(key) && AllSpace(gap)
    ensures Trim(key + gap) == key
  {
    assert KeyChar(key[0]) && KeyChar(key[|key| - 1]);
    TrimIs([], key, gap);
    assert [] + key + gap == key + gap;
  }

  lemma {:induction false} SettingRead(x: Source)
    requires x.Setting? && GoodForm(x)
    ensures ReadContent(Core(x)) == LineResult.Pair(x.key, ScalarValue(x.scalar))
  {
    var front, rest := x.key + x.gap, x.lead + ScalarText(x.scalar);
    CoreEnds(x);
    KeyPasses(x.key, x.gap, ':');
    StopsAfter(front, ':', rest);
    assert Core(x)[..|front|] == front && Core(x)[|front| + 1..] == rest;
    KeyRead(x.key, x.gap);
    ScalarParses(x.scalar, x.lead, []);
    assert rest + [] == rest;
  }

  /** Every line reads as what it was written for. */
  lemma {:induction false} LineReads(x: Source)
    requires GoodForm(x)
    ensures ReadLine(SourceText(x)) == Meaning(x)
  {
    match x
    case Setting(_, _, _, _, _, trail, comment) =>
      StripIs(Body(x), comment);
      CoreEnds(x);
      TrimIs(x.indent, Core(x), trail);
      SettingRead(x);
    case Blank(indent, comment) =>
      NeutralPasses([], '#');
      SpacedPasses(indent, [], []);
      assert indent + [] + [] == indent;
      StripIs(indent, comment);
      TrimIs(indent, [], []);
    case Marker(indent, dots, trail, comment) =>
      var m := MarkerText(dots);
      NeutralPasses(m, '#');
      SpacedPasses(indent, m, trail);
      StripIs(indent + m + trail, comment);
      TrimIs(indent, m, trail);
      assert m[..3] == m && m[3..] == [];
  }

  // ---------- the file ----------

  /** A line with its ending. */
  datatype Line = Line(source: GoodSource, crlf: bool)

  function LineText(l: Line): string {
    SourceText(l.source) + (if l.crlf then ['\r', '\n'] else ['\n'])
  }

  /** The lines of a file, and what stands behind the last line ending. */
  function FileText(ls: seq<Line>, last: GoodSource): string {
    if ls == [] then SourceText(last) else LineText(ls[0]) + FileText(ls[1..], last)
  }

  function EntriesFrom(ls: seq<Line>, last: GoodSource, n: nat): seq<Entry> {
    if ls == [] then EntryOf(last, n) else EntryOf(ls[0].source, n) + EntriesFrom(ls[1..], last, n + 1)
  }

  /** The settings, each with the number of its line. */
  function EntryOf(x: Source, n: nat): seq<Entry> {
    if x.Setting? then [Entry(x.key, ScalarValue(x.scalar), n)] else []
  }

  lemma {:induction false} LineLenIs(a: string, rest: string)
    requires '\n' !in a
    ensures LineLen(a + ['\n'] + rest) == |a|
  {
    var s := a + ['\n'] + rest;
    if a == [] {
      assert s[0] == '\n';
    } else {
      assert a[0] in a;
      assert s[1..] == a[1..] + ['\n'] + rest;
      LineLenIs(a[1..], rest);
    }
  }

  lemma {:induction false} LastLineLen(a: string)
    requires '\n' !in a
    ensures LineLen(a) == |a|
  {
    if a != [] {
      assert a[0] in a;
      LastLineLen(a[1..]);
    }
  }

  /** The loop takes a line off the front and reads it without its ending. */
  lemma {:induction false} TakesLine(l: Line, rest: string)
    ensures var s := LineText(l) + rest;
            && LineLen(s) < |s| && s[LineLen(s) + 1..] == rest
            && ChopReturn(s[..LineLen(s)]) == SourceText(l.source)
  {
    var text := SourceText(l.source);
    var a := if l.crlf then text + ['\r'] else text;
    assert LineText(l) + rest == a + ['\n'] + rest;
    LineLenIs(a, rest);
    assert (a + ['\n'] + rest)[..|a|] == a;
    assert l.crlf ==> a[..|a| - 1] == text;
  }


  /** What a document that grows by `more` must become. */
  function Extended(doc: seq<Entry>, more: seq<Entry>): Option<seq<Entry>> {
    if KeysDiffer(doc + more) then Some(doc + more) else None
  }

  predicate KeysDiffer(doc: seq<Entry>) {
    forall i, j :: 0 <= i < j < |doc| ==> doc[i].key != doc[j].key
  }

  lemma {:induction false} SplitDiffers(doc: seq<Entry>, e: Entry)
    requires KeysDiffer(doc)
    ensures KeysDiffer(doc + [e]) <==> !HasKey(doc, e.key)
  {
    if HasKey(doc, e.key) {
      var i :| 0 <= i < |doc| && doc[i].key == e.key;
      assert (doc + [e])[i].key == (doc + [e])[|doc|].key;
    }
  }

  lemma {:induction false} PrefixDiffers(doc: seq<Entry>, more: seq<Entry>)
    requires KeysDiffer(doc + more)
    ensures KeysDiffer(doc)
  {
    forall i, j | 0 <= i < j < |doc|
      ensures doc[i].key != doc[j].key
    {
      assert (doc + more)[i] == doc[i] && (doc + more)[j] == doc[j];
    }
  }

  lemma {:induction false} AddLineIs(doc: seq<Entry>, x: Source, n: nat)
    requires KeysDiffer(doc)
    ensures AddLine(doc, Meaning(x), n) == Extended(doc, EntryOf(x, n))
  {
    if x.Setting? {
      SplitDiffers(doc, Entry(x.key, ScalarValue(x.scalar), n));
    } else {
      assert doc + [] == doc;
    }
  }

  lemma {:induction false} LoadLast(last: GoodSource, doc: seq<Entry>, n: nat)
    requires KeysDiffer(doc)
    ensures LoadFrom(SourceText(last), doc, n) == Extended(doc, EntryOf(last, n))
  {
    var s := SourceText(last);
    AddLineIs(doc, last, n);
    if s == [] {
      assert last.Blank?;
      assert doc + [] == doc;
    } else {
      LastLineLen(s);
      assert s[..|s|] == s;
      LineReads(last);
      assert LoadLine(s, doc, n) == Extended(doc, EntryOf(last, n));
    }
  }

  lemma {:induction false} LoadIs(ls: seq<Line>, last: GoodSource, doc: seq<Entry>, n: nat)
    requires KeysDiffer(doc)
    ensures LoadFrom(FileText(ls, last), doc, n) == Extended(doc, EntriesFrom(ls, last, n))
    decreases |ls|
  {
    if ls == [] {
      LoadLast(last, doc, n);
    } else {
      var e, more := EntryOf(ls[0].source, n), EntriesFrom(ls[1..], last, n + 1);
      ExtendedStep(doc, e, more);
      LoadStep(ls[0], FileText(ls[1..], last), doc, n);
      if KeysDiffer(doc + e) {
        LoadIs(ls[1..], last, doc + e, n + 1);
      }
    }
  }

  lemma {:induction false} ExtendedStep(doc: seq<Entry>, e: seq<Entry>, more: seq<Entry>)
    ensures Extended(doc, e + more) == if KeysDiffer(doc + e) then Extended(doc + e, more) else None
  {
    assert doc + (e + more) == doc + e + more;
    if KeysDiffer(doc + e + more) {
      PrefixDiffers(doc + e, more);
    }
  }

  lemma {:induction false} LoadStep(l: Line, rest: string, doc: seq<Entry>, n: nat)
    requires KeysDiffer(doc)
    ensures LoadFrom(LineText(l) + rest, doc, n)
            == if KeysDiffer(doc + EntryOf(l.source, n)) then LoadFrom(rest, doc + EntryOf(l.source, n), n + 1)
              else None
  {
    TakesLine(l, rest);
    LineReads(l.source);
    AddLineIs(doc, l.source, n);
    var s := LineText(l) + rest;
    assert LoadFrom(s, doc, n) == LoadLine(s, doc, n);
  }

  lemma {:induction false} FileHasNoNul(ls: seq<Line>, last: GoodSource)
    ensures '\0' !in FileText(ls, last)
  {
    if ls != [] {
      FileHasNoNul(ls[1..], last);
    }
  }

  /** Loading a written file gives exactly its settings, in order and with their line numbers, when no key
      occurs twice; and an error otherwise. */
  lemma {:induction false} LoadExact(ls: seq<Line>, last: GoodSource)
    ensures var es := EntriesFrom(ls, last, 1);
            LoadFile(FileText(ls, last)) == if KeysDiffer(es) then Some(es) else None
  {
    FileHasNoNul(ls, last);
    LoadIs(ls, last, [], 1);
    assert [] + EntriesFrom(ls, last, 1) == EntriesFrom(ls, last, 1);
  }
}
