/** Writing settings so that they load back, and exactly which values survive. */
module ConfigWritten {
  import opened Seqs
  import opened Ctype
  import opened ConfigScan
  import opened ConfigScalar
  import opened Config
  import opened ConfigRoundTrip

  /** One setting, its value double-quoted with escapes. */
  function Written(key: string, v: string): Source {
    Setting([], key, [], [' '], Double(Quoted(v)), [], None)
  }

  /** One setting per line. */
  function WrittenFile(pairs: seq<(string, string)>): string {
    if pairs == [] then [] else SourceText(Written(pairs[0].0, pairs[0].1)) + ['\n'] + WrittenFile(pairs[1..])
  }

  /** The entries, counted from line `n`. */
  function Entries(pairs: seq<(string, string)>, n: nat): (es: seq<Entry>)
    ensures |es| == |pairs| && forall i :: 0 <= i < |es| ==> es[i] == Entry(pairs[i].0, pairs[i].1, n + i)
  {
    seq(|pairs|, i requires 0 <= i < |pairs| => Entry(pairs[i].0, pairs[i].1, n + i))
  }

  ghost predicate ValidKeys(pairs: seq<(string, string)>) {
    forall i :: 0 <= i < |pairs| ==> ValidKey(pairs[i].0)
  }

  ghost predicate DistinctKeys(pairs: seq<(string, string)>) {
    forall i, j :: 0 <= i < j < |pairs| ==> pairs[i].0 != pairs[j].0
  }

  ghost predicate NulFreeValues(pairs: seq<(string, string)>) {
    forall i :: 0 <= i < |pairs| ==> '\0' !in pairs[i].1
  }

  // ---------- NUL-free values ----------

  /** The first character of a quoted value, then the others. */
  lemma {:induction false} QuotedStep(v: string)
    requires v != []
    ensures PiecesText(Quoted(v)) == PieceText(QuotedChar(v[0])) + PiecesText(Quoted(v[1..]))
  {
    assert Quoted(v)[1..] == Quoted(v[1..]);
  }

  lemma {:induction false} QuotedCharIsPlain(c: char)
    ensures '\n' !in PieceText(QuotedChar(c)) && '\r' !in PieceText(QuotedChar(c))
    ensures '\0' in PieceText(QuotedChar(c)) <==> c == '\0'
  {
  }

  /** Quoting leaves no line break and no carriage return. */
  lemma {:induction false} QuotedIsOneLine(v: string)
    ensures '\n' !in PiecesText(Quoted(v)) && '\r' !in PiecesText(Quoted(v))
  {
    if v != [] {
      QuotedIsOneLine(v[1..]);
      QuotedStep(v);
      QuotedCharIsPlain(v[0]);
      InConcat('\n', PieceText(QuotedChar(v[0])), PiecesText(Quoted(v[1..])));
      InConcat('\r', PieceText(QuotedChar(v[0])), PiecesText(Quoted(v[1..])));
    }
  }

  /** A quoted value has a NUL where the value has one. */
  lemma {:induction false} QuotedKeepsNul(v: string)
    ensures '\0' in PiecesText(Quoted(v)) <==> '\0' in v
  {
    if v != [] {
      QuotedKeepsNul(v[1..]);
      QuotedStep(v);
      QuotedCharIsPlain(v[0]);
      InConcat('\0', PieceText(QuotedChar(v[0])), PiecesText(Quoted(v[1..])));
      assert v == [v[0]] + v[1..];
      InConcat('\0', [v[0]], v[1..]);
    }
  }

  lemma {:induction false} CoreText(key: string, v: string)
    ensures Core(Written(key, v)) == key + [':'] + ([' ', '"'] + PiecesText(Quoted(v)) + ['"'])
  {
    var q := PiecesText(Quoted(v));
    assert key + [] == key;
    assert [' '] + (['"'] + q + ['"']) == [' ', '"'] + q + ['"'];
  }

  /** The text of a written setting. */
  lemma {:induction false} WrittenText(key: string, v: string)
    ensures SourceText(Written(key, v)) == key + [':'] + ([' ', '"'] + PiecesText(Quoted(v)) + ['"'])
  {
    CoreText(key, v);
    EmptyAround(Core(Written(key, v)));
  }

  lemma {:induction false} EmptyAround(s: string)
    ensures [] + s + [] + [] == s
  {
  }

  lemma {:induction false} KeyIsPlain(key: string)
    requires ValidKey(key)
    ensures '\n' !in key && '\0' !in key && '\r' !in key
  {
    assert forall i :: 0 <= i < |key| ==> KeyChar(key[i]);
  }

  /** The scanner passes over a written setting. */
  lemma {:induction false} WrittenPasses(key: string, v: string)
    requires ValidKey(key)
    ensures Passes(Core(Written(key, v)), '#')
  {
    var scalar := Double(Quoted(v));
    KeyPasses(key, [], '#');
    NeutralPasses([':'], '#');
    NeutralPasses([' '], '#');
    QuotedPasses(scalar, '#');
    PassesAppend([' '], ScalarText(scalar), '#');
    PassesAppend(key + [], [':'], '#');
    PassesAppend((key + []) + [':'], [' '] + ScalarText(scalar), '#');
  }

  lemma {:induction false} WrittenForm(key: string, v: string)
    requires ValidKey(key)
    ensures GoodForm(Written(key, v))
  {
    WrittenPasses(key, v);
    EmptyAround(Core(Written(key, v)));
    assert Body(Written(key, v)) == Core(Written(key, v));
  }

  lemma {:induction false} WrittenOk(key: string, v: string)
    requires ValidKey(key) && '\0' !in v
    ensures SourceOk(Written(key, v))
  {
    WrittenForm(key, v);
    QuotedIsOneLine(v);
    QuotedKeepsNul(v);
    KeyIsPlain(key);
    WrittenText(key, v);
  }

  function WrittenSource(key: string, v: string): (x: GoodSource)
    requires ValidKey(key) && '\0' !in v
    ensures x == Written(key, v)
  {
    WrittenOk(key, v);
    Written(key, v)
  }

  lemma {:induction false} WrittenEntry(key: string, v: string, n: nat)
    ensures EntryOf(Written(key, v), n) == [Entry(key, v, n)]
  {
  }

  // ---------- a NUL ends the file inside the quotes ----------

  lemma {:induction false} CStringFront(a: string, b: string)
    requires '\0' !in a
    ensures CString(a + b) == a + CString(b)
  {
    if a == [] {
      assert a + b == b;
    } else {
      assert a[0] in a;
      assert (a + b)[1..] == a[1..] + b;
      CStringFront(a[1..], b);
    }
  }

  lemma {:induction false} CStringStep(s: string)
    requires s != [] && s[0] != '\0'
    ensures CString(s) != [] && CString(s)[0] == s[0] && CString(s)[1..] == CString(s[1..])
  {
  }

  lemma {:induction false} CutHere(v: string, rest: string)
    requires v != [] && v[0] == '\0'
    ensures CString(PiecesText(Quoted(v)) + rest) == [] && CString(v) == []
  {
    QuotedStep(v);
    assert PieceText(QuotedChar(v[0])) == ['\0'];
    assert (PiecesText(Quoted(v)) + rest)[0] == '\0';
  }

  lemma {:induction false} CutStep(v: string, rest: string, tail: string)
    requires v != [] && v[0] != '\0' && CString(PiecesText(Quoted(v[1..])) + rest) == tail
    ensures CString(PiecesText(Quoted(v)) + rest) == PieceText(QuotedChar(v[0])) + tail
  {
    QuotedStep(v);
    QuotedCharIsPlain(v[0]);
    Assoc(PieceText(QuotedChar(v[0])), PiecesText(Quoted(v[1..])), rest);
    CStringFront(PieceText(QuotedChar(v[0])), PiecesText(Quoted(v[1..])) + rest);
  }

  /** What is left of a quoted value with a NUL: its front, still open. */
  lemma {:induction false} CutValue(v: string, rest: string)
    requires '\0' in v
    ensures CString(PiecesText(Quoted(v)) + rest) == PiecesText(Quoted(CString(v)))
  {
    if v[0] == '\0' {
      CutHere(v, rest);
    } else {
      assert v == [v[0]] + v[1..];
      InConcat('\0', [v[0]], v[1..]);
      CutValue(v[1..], rest);
      CutStep(v, rest, PiecesText(Quoted(CString(v[1..]))));
      CStringStep(v);
      QuotedStep(CString(v));
    }
  }

  /** Characters alone never close the quotes. */
  lemma {:induction false} StaysOpen(ps: seq<Character>)
    ensures DecodeDouble(PiecesText(ps)) == None
  {
    if ps != [] {
      StaysOpen(ps[1..]);
      var s := PiecesText(ps);
      assert s[|PieceText(ps[0])|..] == PiecesText(ps[1..]);
    }
  }

  lemma {:induction false} FrontStaysOpen(ps: seq<Character>, j: nat)
    requires j <= |PiecesText(ps)|
    ensures DecodeDouble(PiecesText(ps)[..j]) == None
  {
    var s := PiecesText(ps);
    if DecodeDouble(s[..j]).Some? {
      var qs := DoubleParses(s[..j]);
      var rest := DecodeDouble(s[..j]).value.rest;
      DoubleDecodes(qs, rest + s[j..]);
      assert s == PiecesText(qs) + ['"'] + (rest + s[j..]);
      StaysOpen(ps);
    }
  }

  /** Trimming at the end keeps a front that ends in no white space. */
  lemma {:induction false} RTrimKeeps(a: string, b: string) returns (j: nat)
    requires a != [] && !IsSpace(a[|a| - 1])
    ensures j <= |b| && RTrim(a + b) == a + b[..j]
    decreases |b|
  {
    var s := a + b;
    if b != [] && IsSpace(b[|b| - 1]) {
      assert s[..|s| - 1] == a + b[..|b| - 1];
      j := RTrimKeeps(a, b[..|b| - 1]);
      assert b[..|b| - 1][..j] == b[..j];
    } else {
      j := |b|;
      assert b[..j] == b;
    }
  }

  lemma {:induction false} OpenScalar(ps: seq<Character>, j: nat)
    requires j <= |PiecesText(ps)|
    ensures ParseScalar([' ', '"'] + PiecesText(ps)[..j]) == None
  {
    var p := PiecesText(ps)[..j];
    assert [' ', '"'] + p == [' '] + (['"'] + p);
    LTrimIs([' '], ['"'] + p);
    var k := RTrimKeeps(['"'], p);
    assert (['"'] + p[..k])[1..] == PiecesText(ps)[..k];
    FrontStaysOpen(ps, k);
  }

  /** A line that ends inside its quotes is an error. */
  lemma {:induction false} OpenContent(key: string, ps: seq<Character>, j: nat)
    requires ValidKey(key) && j <= |PiecesText(ps)|
    ensures ReadContent(key + [':'] + ([' ', '"'] + PiecesText(ps)[..j])) == Bad
  {
    var rest := [' ', '"'] + PiecesText(ps)[..j];
    var t := key + [':'] + rest;
    KeyPasses(key, [], ':');
    assert key + [] == key;
    StopsAfter(key, ':', rest);
    NotAMarker(t, |key|, "---");
    NotAMarker(t, |key|, "...");
    assert t[..|key|] == key && t[|key| + 1..] == rest;
    OpenScalar(ps, j);
  }

  /** Open quotes pass as well. */
  lemma {:induction false} OpenPasses(ps: seq<Character>)
    ensures FindStop(['"'] + PiecesText(ps), Outside, '#') == None
  {
    PiecesPass(ps, '#');
    assert ['"'][1..] == [];
    StopAppend(['"'], PiecesText(ps), Outside, '#');
  }

  lemma {:induction false} FrontPasses(key: string)
    requires ValidKey(key)
    ensures Passes(key + [':', ' '], '#')
  {
    KeyPasses(key, [], '#');
    assert key + [] == key;
    NeutralPasses([':', ' '], '#');
    PassesAppend(key, [':', ' '], '#');
  }

  lemma {:induction false} NothingToStrip(key: string, ps: seq<Character>)
    requires ValidKey(key)
    ensures Strip(key + [':'] + ([' ', '"'] + PiecesText(ps))) == key + [':'] + ([' ', '"'] + PiecesText(ps))
  {
    var front := key + [':', ' '];
    FrontPasses(key);
    OpenPasses(ps);
    StopAppend(front, ['"'] + PiecesText(ps), Outside, '#');
    assert key + [':'] + ([' ', '"'] + PiecesText(ps)) == front + (['"'] + PiecesText(ps));
  }

  lemma {:induction false} OpenLine(key: string, ps: seq<Character>)
    requires ValidKey(key)
    ensures ReadLine(key + [':'] + ([' ', '"'] + PiecesText(ps))) == Bad
  {
    var s := key + [':'] + ([' ', '"'] + PiecesText(ps));
    var front := key + [':', ' ', '"'];
    NothingToStrip(key, ps);
    assert KeyChar(key[0]) && s[0] == key[0];
    assert s == front + PiecesText(ps);
    var j := RTrimKeeps(front, PiecesText(ps));
    assert front + PiecesText(ps)[..j] == key + [':'] + ([' ', '"'] + PiecesText(ps)[..j]);
    OpenContent(key, ps, j);
  }

  lemma {:induction false} OpenLoads(key: string, v: string, doc: seq<Entry>, n: nat)
    requires ValidKey(key)
    ensures LoadFrom(key + [':'] + ([' ', '"'] + PiecesText(Quoted(v))), doc, n) == None
  {
    var s := key + [':'] + ([' ', '"'] + PiecesText(Quoted(v)));
    QuotedIsOneLine(v);
    KeyIsPlain(key);
    LastLineLen(s);
    assert s[..|s|] == s && ChopReturn(s) == s;
    OpenLine(key, Quoted(v));
    assert LoadFrom(s, doc, n) == LoadLine(s, doc, n);
  }

  // ---------- whole files ----------

  lemma {:induction false} PlainFirst(key: string, v: string, rest: string)
    requires ValidKey(key) && '\0' !in v
    ensures CString(SourceText(Written(key, v)) + ['\n'] + rest)
            == LineText(Line(WrittenSource(key, v), false)) + CString(rest)
  {
    WrittenOk(key, v);
    CStringFront(SourceText(Written(key, v)) + ['\n'], rest);
  }

  lemma {:induction false} FrontOut(key: string, o: string, p: string, q: string, end: string, rest: string)
    ensures key + [':'] + (o + p + q) + end + rest == key + [':'] + o + (p + (q + (end + rest)))
  {
    Assoc(key + [':'] + (o + p + q), end, rest);
    Assoc(key + [':'], o + p, q);
    Assoc(key + [':'] + (o + p), q, end + rest);
    Assoc(key + [':'], o, p);
    Assoc(key + [':'] + o, p, q + (end + rest));
  }

  /** The front of a setting has no NUL. */
  lemma {:induction false} CutRest(key: string, s: string)
    requires ValidKey(key)
    ensures CString(key + [':'] + [' ', '"'] + s) == key + [':'] + ([' ', '"'] + CString(s))
  {
    KeyIsPlain(key);
    CStringFront(key + [':'] + [' ', '"'], s);
    Assoc(key + [':'], [' ', '"'], CString(s));
  }

  lemma {:induction false} CutFirst(key: string, v: string, rest: string)
    requires ValidKey(key) && '\0' in v
    ensures CString(SourceText(Written(key, v)) + ['\n'] + rest)
            == key + [':'] + ([' ', '"'] + PiecesText(Quoted(CString(v))))
  {
    var p, more := PiecesText(Quoted(v)), ['"'] + (['\n'] + rest);
    WrittenText(key, v);
    FrontOut(key, [' ', '"'], p, ['"'], ['\n'], rest);
    CutRest(key, p + more);
    CutValue(v, more);
  }

  /** A file whose first value has a NUL does not load. */
  lemma {:induction false} CutLoads(key: string, v: string, rest: string, doc: seq<Entry>, n: nat)
    requires ValidKey(key) && '\0' in v
    ensures LoadFrom(CString(SourceText(Written(key, v)) + ['\n'] + rest), doc, n) == None
  {
    CutFirst(key, v, rest);
    OpenLoads(key, CString(v), doc, n);
  }

  /** A first value without a NUL adds its entry. */
  lemma {:induction false} PlainLoads(key: string, v: string, rest: string, doc: seq<Entry>, n: nat)
    requires ValidKey(key) && '\0' !in v && KeysDiffer(doc) && KeysDiffer(doc + [Entry(key, v, n)])
    ensures LoadFrom(CString(SourceText(Written(key, v)) + ['\n'] + rest), doc, n)
            == LoadFrom(CString(rest), doc + [Entry(key, v, n)], n + 1)
  {
    PlainFirst(key, v, rest);
    WrittenEntry(key, v, n);
    LoadStep(Line(WrittenSource(key, v), false), CString(rest), doc, n);
  }

  lemma {:induction false} EntriesStep(pairs: seq<(string, string)>, doc: seq<Entry>, n: nat)
    requires pairs != [] && KeysDiffer(doc + Entries(pairs, n))
    ensures doc + Entries(pairs, n) == doc + [Entry(pairs[0].0, pairs[0].1, n)] + Entries(pairs[1..], n + 1)
    ensures KeysDiffer(doc) && KeysDiffer(doc + [Entry(pairs[0].0, pairs[0].1, n)])
  {
    var e, more := [Entry(pairs[0].0, pairs[0].1, n)], Entries(pairs[1..], n + 1);
    assert doc + Entries(pairs, n) == doc + e + more;
    PrefixDiffers(doc + e, more);
    PrefixDiffers(doc, e);
  }

  lemma {:induction false} RestLoads(pairs: seq<(string, string)>, doc: seq<Entry>, n: nat)
    requires ValidKeys(pairs) && KeysDiffer(doc + Entries(pairs, n))
    ensures LoadFrom(CString(WrittenFile(pairs)), doc, n)
            == if NulFreeValues(pairs) then Some(doc + Entries(pairs, n)) else None
    decreases |pairs|
  {
    if pairs == [] {
      assert doc + [] == doc;
    } else {
      var key, v, rest := pairs[0].0, pairs[0].1, WrittenFile(pairs[1..]);
      if '\0' in v {
        CutLoads(key, v, rest, doc, n);
      } else {
        EntriesStep(pairs, doc, n);
        PlainLoads(key, v, rest, doc, n);
        RestLoads(pairs[1..], doc + [Entry(key, v, n)], n + 1);
        TailValues(pairs);
      }
    }
  }

  lemma {:induction false} TailValues(pairs: seq<(string, string)>)
    requires pairs != [] && '\0' !in pairs[0].1
    ensures NulFreeValues(pairs) <==> NulFreeValues(pairs[1..])
  {
    assert pairs == [pairs[0]] + pairs[1..];
  }

  /** Distinct valid keys with NUL-free values load back exactly as they were written; a value with a NUL
      makes the whole file unreadable. */
  lemma {:induction false} WrittenLoads(pairs: seq<(string, string)>)
    requires ValidKeys(pairs) && DistinctKeys(pairs)
    ensures LoadFile(WrittenFile(pairs)) == if NulFreeValues(pairs) then Some(Entries(pairs, 1)) else None
  {
    assert [] + Entries(pairs, 1) == Entries(pairs, 1);
    RestLoads(pairs, [], 1);
  }
}
