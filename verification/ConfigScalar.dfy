/** Scalars of the configuration reader: double-quoted with escapes, single-quoted with doubled quotes,
    or bare. */
module ConfigScalar {
  import opened Seqs
  import opened Ctype
  import opened ConfigScan

  // ---------- the grammar ----------

  /** A character between double quotes. */
  datatype Piece = Raw(c: char) | Esc(c: char)

  /** What a backslash and a letter stand for. */
  function Unescape(c: char): Option<char> {
    if c == 'n' then Some('\n')
    else if c == 'r' then Some('\r')
    else if c == 't' then Some('\t')
    else if c == '"' then Some('"')
    else if c == '\\' then Some('\\')
    else None
  }

  predicate PieceOk(p: Piece) {
    match p
    case Raw(c) => c != '"' && c != '\\'
    case Esc(c) => Unescape(c).Some?
  }

  type Character = p: Piece | PieceOk(p) witness Raw('a')

  function PieceText(p: Character): string {
    match p
    case Raw(c) => [c]
    case Esc(c) => ['\\', c]
  }

  function PieceValue(p: Character): char {
    match p
    case Raw(c) => c
    case Esc(c) => Unescape(c).value
  }

  function PiecesText(ps: seq<Character>): string {
    if ps == [] then [] else PieceText(ps[0]) + PiecesText(ps[1..])
  }

  function PiecesValue(ps: seq<Character>): (r: string)
    ensures |r| == |ps|
  {
    if ps == [] then [] else [PieceValue(ps[0])] + PiecesValue(ps[1..])
  }

  /** Every single quote twice. */
  function Doubled(v: string): string {
    if v == [] then [] else (if v[0] == '\'' then ['\'', '\''] else [v[0]]) + Doubled(v[1..])
  }

  // ---------- the decoders ----------

  datatype Decoded = Decoded(value: string, rest: string)

  function Prepend(c: char, r: Option<Decoded>): Option<Decoded> {
    match r
    case None => None
    case Some(d) => Some(Decoded([c] + d.value, d.rest))
  }

  /** Behind the opening double quote: the value, and what follows the closing one. */
  function DecodeDouble(s: string): (r: Option<Decoded>)
    ensures r.Some? ==> |r.value.rest| < |s|
    decreases |s|
  {
    if s == [] then None
    else if s[0] == '"' then Some(Decoded([], s[1..]))
    else if s[0] != '\\' then Prepend(s[0], DecodeDouble(s[1..]))
    else if |s| == 1 || Unescape(s[1]).None? then None
    else Prepend(Unescape(s[1]).value, DecodeDouble(s[2..]))
  }

  /** Behind the opening single quote. */
  function DecodeSingle(s: string): (r: Option<Decoded>)
    ensures r.Some? ==> |r.value.rest| < |s|
    decreases |s|
  {
    if s == [] then None
    else if s[0] != '\'' then Prepend(s[0], DecodeSingle(s[1..]))
    else if |s| > 1 && s[1] == '\'' then Prepend('\'', DecodeSingle(s[2..]))
    else Some(Decoded([], s[1..]))
  }

  function Closed(r: Option<Decoded>): Option<string> {
    match r
    case None => None
    case Some(d) => if AllSpace(d.rest) then Some(d.value) else None
  }

  /** `parse_scalar`; `None` stands for its error. */
  function ParseScalar(text: string): Option<string> {
    var t := Trim(text);
    if t == [] then None
    else if t[0] == '\'' then Closed(DecodeSingle(t[1..]))
    else if t[0] == '"' then Closed(DecodeDouble(t[1..]))
    else Some(t)
  }

  // ---------- the loops ----------

  /** The result that the characters already decoded lead to. */
  ghost predicate After(done: string, r: Option<Decoded>, all: Option<Decoded>) {
    match r
    case None => all == None
    case Some(d) => all == Some(Decoded(done + d.value, d.rest))
  }

  lemma {:induction false} AfterOne(done: string, c: char, r: Option<Decoded>, all: Option<Decoded>)
    requires After(done, Prepend(c, r), all)
    ensures After(done + [c], r, all)
  {
    if r.Some? {
      assert done + ([c] + r.value.value) == done + [c] + r.value.value;
    }
  }

  lemma {:induction false} AfterStart(r: Option<Decoded>)
    ensures After([], r, r)
  {
    if r.Some? {
      assert [] + r.value.value == r.value.value;
    }
  }

  /** `trailing_is_empty`. */
  method TrailingIsEmpty(text: string) returns (r: bool)
    ensures r <==> AllSpace(text)
  {
    for i := 0 to |text|
      invariant AllSpace(text[..i])
    {
      if !IsSpace(text[i]) {
        return false;
      }
      assert text[..i + 1] == text[..i] + [text[i]];
    }
    assert text[..|text|] == text;
    r := true;
  }

  /** `decode_single_quoted` on a text that starts with a quote. */
  method DecodeSingleQuoted(text: string) returns (r: Option<string>)
    requires text != [] && text[0] == '\''
    ensures r == Closed(DecodeSingle(text[1..]))
  {
    var value: string := [];
    var readIndex := 1;
    var closed := false;
    ghost var all := DecodeSingle(text[1..]);
    AfterStart(all);
    while readIndex < |text|
      invariant 1 <= readIndex <= |text| && After(value, DecodeSingle(text[readIndex..]), all)
      decreases |text| - readIndex
    {
      ghost var s := text[readIndex..];
      if text[readIndex] == '\'' {
        if readIndex + 1 < |text| && text[readIndex + 1] == '\'' {
          assert s[2..] == text[readIndex + 2..];
          AfterOne(value, '\'', DecodeSingle(s[2..]), all);
          value := value + ['\''];
          readIndex := readIndex + 2;
          continue;
        }
        closed := true;
        readIndex := readIndex + 1;
        assert s[1..] == text[readIndex..];
        assert all == Some(Decoded(value + [], s[1..]));
        break;
      }
      assert s[1..] == text[readIndex + 1..];
      AfterOne(value, text[readIndex], DecodeSingle(s[1..]), all);
      value := value + [text[readIndex]];
      readIndex := readIndex + 1;
    }
    if !closed {
      return None;
    }
    assert value + [] == value;
    var empty := TrailingIsEmpty(text[readIndex..]);
    r := if empty then Some(value) else None;
  }

  /** `decode_double_quoted` on a text that starts with a quote. */
  method DecodeDoubleQuoted(text: string) returns (r: Option<string>)
    requires text != [] && text[0] == '"'
    ensures r == Closed(DecodeDouble(text[1..]))
  {
    var value: string := [];
    var readIndex := 1;
    var closed := false;
    ghost var all := DecodeDouble(text[1..]);
    AfterStart(all);
    while readIndex < |text|
      invariant 1 <= readIndex <= |text| && After(value, DecodeDouble(text[readIndex..]), all)
      decreases |text| - readIndex
    {
      ghost var s := text[readIndex..];
      var ch := text[readIndex];
      readIndex := readIndex + 1;
      assert s[1..] == text[readIndex..];
      if ch == '"' {
        closed := true;
        assert all == Some(Decoded(value + [], s[1..]));
        break;
      }
      if ch == '\\' {
        if readIndex == |text| || Unescape(text[readIndex]).None? {
          return None;
        }
        ch := Unescape(text[readIndex]).value;
        readIndex := readIndex + 1;
        assert s[2..] == text[readIndex..];
      }
      AfterOne(value, ch, DecodeDouble(text[readIndex..]), all);
      value := value + [ch];
    }
    if !closed {
      return None;
    }
    assert value + [] == value;
    var empty := TrailingIsEmpty(text[readIndex..]);
    r := if empty then Some(value) else None;
  }

  /** `parse_scalar` as the code runs it. */
  method RunScalar(text: string) returns (r: Option<string>)
    ensures r == ParseScalar(text)
  {
    var trimmed := Trim(text);
    if trimmed == [] {
      return None;
    }
    if trimmed[0] == '\'' {
      r := DecodeSingleQuoted(trimmed);
    } else if trimmed[0] == '"' {
      r := DecodeDoubleQuoted(trimmed);
    } else {
      r := Some(trimmed);
    }
  }

  // ---------- the decoders are exact ----------

  lemma {:induction false} DoubleDecodes(ps: seq<Character>, rest: string)
    ensures DecodeDouble(PiecesText(ps) + ['"'] + rest) == Some(Decoded(PiecesValue(ps), rest))
  {
    var s := PiecesText(ps) + ['"'] + rest;
    if ps == [] {
      assert s[1..] == rest;
    } else {
      DoubleDecodes(ps[1..], rest);
      var tail := PiecesText(ps[1..]) + ['"'] + rest;
      assert s == PieceText(ps[0]) + tail;
      assert s[|PieceText(ps[0])|..] == tail;
    }
  }

  lemma {:induction false} DoubleParses(s: string) returns (ps: seq<Character>)
    requires DecodeDouble(s).Some?
    ensures var d := DecodeDouble(s).value; s == PiecesText(ps) + ['"'] + d.rest && d.value == PiecesValue(ps)
    decreases |s|
  {
    var d := DecodeDouble(s).value;
    if s[0] == '"' {
      ps := [];
      assert s == [] + ['"'] + s[1..];
    } else {
      var p: Character := if s[0] == '\\' then Esc(s[1]) else Raw(s[0]);
      var tail := s[|PieceText(p)|..];
      var more := DoubleParses(tail);
      ps := [p] + more;
      assert ps[1..] == more;
      assert s == PieceText(p) + tail;
      assert s == PieceText(p) + PiecesText(more) + ['"'] + d.rest;
    }
  }

  /** The double-quoted decoder accepts exactly the characters of the grammar up to the first closing
      quote, and gives what they stand for. */
  lemma {:induction false} DoubleExact(s: string, d: Decoded)
    ensures DecodeDouble(s) == Some(d) <==>
            exists ps: seq<Character> :: PiecesText(ps) + ['"'] + d.rest == s && PiecesValue(ps) == d.value
  {
    if DecodeDouble(s) == Some(d) {
      var ps := DoubleParses(s);
      assert PiecesText(ps) + ['"'] + d.rest == s && PiecesValue(ps) == d.value;
    }
    if ps: seq<Character> :| PiecesText(ps) + ['"'] + d.rest == s && PiecesValue(ps) == d.value {
      DoubleDecodes(ps, d.rest);
    }
  }

  predicate NoQuoteFirst(s: string) { s == [] || s[0] != '\'' }

  lemma {:induction false} SingleDecodes(v: string, rest: string)
    requires NoQuoteFirst(rest)
    ensures DecodeSingle(Doubled(v) + ['\''] + rest) == Some(Decoded(v, rest))
  {
    var s := Doubled(v) + ['\''] + rest;
    if v == [] {
      assert s[1..] == rest;
    } else {
      SingleDecodes(v[1..], rest);
      var tail := Doubled(v[1..]) + ['\''] + rest;
      var n := if v[0] == '\'' then 2 else 1;
      assert s == Doubled(v)[..n] + tail;
      assert s[n..] == tail && v == [v[0]] + v[1..];
    }
  }

  lemma {:induction false} DoubledStep(c: char, d: Decoded)
    ensures Doubled([c] + d.value) + ['\''] + d.rest
            == (if c == '\'' then ['\'', '\''] else [c]) + (Doubled(d.value) + ['\''] + d.rest)
  {
    assert ([c] + d.value)[1..] == d.value;
  }

  lemma {:induction false} SingleParses(s: string)
    requires DecodeSingle(s).Some?
    ensures var d := DecodeSingle(s).value; s == Doubled(d.value) + ['\''] + d.rest && NoQuoteFirst(d.rest)
    decreases |s|
  {
    var d := DecodeSingle(s).value;
    if s[0] != '\'' {
      SingleParses(s[1..]);
      DoubledStep(s[0], DecodeSingle(s[1..]).value);
      assert s == [s[0]] + s[1..];
    } else if |s| > 1 && s[1] == '\'' {
      SingleParses(s[2..]);
      DoubledStep('\'', DecodeSingle(s[2..]).value);
      assert s == ['\'', '\''] + s[2..];
    } else {
      assert s == [] + ['\''] + s[1..];
    }
  }

  /** The single-quoted decoder accepts exactly the texts with every quote doubled. */
  lemma {:induction false} SingleExact(s: string, d: Decoded)
    ensures DecodeSingle(s) == Some(d) <==> s == Doubled(d.value) + ['\''] + d.rest && NoQuoteFirst(d.rest)
  {
    if DecodeSingle(s) == Some(d) {
      SingleParses(s);
    }
    if s == Doubled(d.value) + ['\''] + d.rest && NoQuoteFirst(d.rest) {
      SingleDecodes(d.value, d.rest);
    }
  }

  // ---------- scalars ----------

  datatype Scalar = Double(pieces: seq<Character>) | Single(v: string) | Bare(s: string)

  function ScalarText(x: Scalar): string {
    match x
    case Double(ps) => ['"'] + PiecesText(ps) + ['"']
    case Single(v) => ['\''] + Doubled(v) + ['\'']
    case Bare(s) => s
  }

  function ScalarValue(x: Scalar): string {
    match x
    case Double(ps) => PiecesValue(ps)
    case Single(v) => v
    case Bare(s) => s
  }

  /** A bare scalar does not begin with a quote and has no white space at its ends. */
  ghost predicate ScalarOk(x: Scalar) {
    x.Bare? ==>
      x.s != [] && x.s[0] != '\'' && x.s[0] != '"' && !IsSpace(x.s[0]) && !IsSpace(x.s[|x.s| - 1])
  }

  lemma {:induction false} PiecesPass(ps: seq<Character>, c: char)
    ensures FindStop(PiecesText(ps), InDouble, c) == None && StateAfter(PiecesText(ps), InDouble) == InDouble
  {
    if ps != [] {
      PiecesPass(ps[1..], c);
      PiecePasses(ps[0], c);
      StopAppend(PieceText(ps[0]), PiecesText(ps[1..]), InDouble, c);
    }
  }

  lemma {:induction false} PiecePasses(p: Character, c: char)
    ensures FindStop(PieceText(p), InDouble, c) == None && StateAfter(PieceText(p), InDouble) == InDouble
  {
    if p.Esc? {
      assert PieceText(p)[1..] == [p.c] && [p.c][1..] == [];
      assert FindStop([p.c], Escaped, c) == None && StateAfter([p.c], Escaped) == InDouble;
    } else {
      assert PieceText(p)[1..] == [];
    }
  }

  lemma {:induction false} DoubledPass(v: string, c: char)
    requires c != '\''
    ensures FindStop(Doubled(v), InSingle, c) == None && StateAfter(Doubled(v), InSingle) == InSingle
  {
    if v != [] {
      var front := if v[0] == '\'' then ['\'', '\''] else [v[0]];
      DoubledPass(v[1..], c);
      assert front[1..] == if v[0] == '\'' then ['\''] else [];
      assert ['\''][1..] == [];
      assert FindStop(['\''], Outside, c) == None && StateAfter(['\''], Outside) == InSingle;
      StopAppend(front, Doubled(v[1..]), InSingle, c);
    }
  }

  /** No scanner stops inside a quoted scalar, whatever it holds, and none takes its quotes for open ones
      behind it. */
  lemma {:induction false} QuotedPasses(x: Scalar, c: char)
    requires !x.Bare? && c != '\'' && c != '"'
    ensures Passes(ScalarText(x), c)
  {
    var quote := if x.Double? then '"' else '\'';
    var inside := if x.Double? then InDouble else InSingle;
    var body := if x.Double? then PiecesText(x.pieces) else Doubled(x.v);
    if x.Double? {
      PiecesPass(x.pieces, c);
    } else {
      DoubledPass(x.v, c);
    }
    assert [quote][1..] == [];
    StopAppend([quote], body, Outside, c);
    StopAppend([quote] + body, [quote], Outside, c);
  }

  lemma {:induction false} TextEnds(x: Scalar)
    requires ScalarOk(x)
    ensures var t := ScalarText(x); t != [] && !IsSpace(t[0]) && !IsSpace(t[|t| - 1])
  {
  }

  /** A scalar between white space parses to its value. */
  lemma {:induction false} ScalarParses(x: Scalar, front: string, back: string)
    requires ScalarOk(x) && AllSpace(front) && AllSpace(back)
    ensures ParseScalar(front + ScalarText(x) + back) == Some(ScalarValue(x))
  {
    TextEnds(x);
    var t := ScalarText(x);
    TrimIs(front, t, back);
    match x
    case Double(ps) =>
      assert t[1..] == PiecesText(ps) + ['"'] + [];
      DoubleDecodes(ps, []);
    case Single(v) =>
      assert t[1..] == Doubled(v) + ['\''] + [];
      SingleDecodes(v, []);
    case Bare(s) =>
  }

  /** One character of a double-quoted value, escaped where it has to be. */
  function QuotedChar(c: char): (p: Character)
    ensures PieceValue(p) == c
  {
    if c == '\n' then Esc('n') else if c == '\r' then Esc('r') else if c == '\t' then Esc('t')
    else if c == '"' then Esc('"') else if c == '\\' then Esc('\\') else Raw(c)
  }

  /** The five escapes inside double quotes, and no others. */
  lemma {:induction false} EscapesExact(c: char, rest: string)
    ensures c == 'n' ==> DecodeDouble(['\\', c] + rest) == Prepend('\n', DecodeDouble(rest))
    ensures c == 'r' ==> DecodeDouble(['\\', c] + rest) == Prepend('\r', DecodeDouble(rest))
    ensures c == 't' ==> DecodeDouble(['\\', c] + rest) == Prepend('\t', DecodeDouble(rest))
    ensures c == '"' || c == '\\' ==> DecodeDouble(['\\', c] + rest) == Prepend(c, DecodeDouble(rest))
    ensures c !in "nrt\"\\" ==> DecodeDouble(['\\', c] + rest) == None
  {
    var s := ['\\', c] + rest;
    assert s[2..] == rest;
    var names := "nrt\"\\";
    assert names[0] == 'n' && names[1] == 'r' && names[2] == 't' && names[3] == '"' && names[4] == '\\';
  }

  /** Every value has a double-quoted rendering without line breaks. */
  function Quoted(v: string): (ps: seq<Character>)
    ensures PiecesValue(ps) == v
  {
    if v == [] then [] else [QuotedChar(v[0])] + Quoted(v[1..])
  }
}
