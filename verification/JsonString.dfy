/** JSON strings (section 7 of RFC 8259): grammar, printer and parser. */
module JsonString {
  import opened Seqs
  import opened Bytes
  import opened Utf8

  const QUOTE: Byte := 34
  const BACKSLASH: Byte := 92
  const LETTER_U: Byte := 117

  // ---------- hexadecimal ----------

  /** `gd_tok_hex_value`. */
  function HexValue(c: Byte): int {
    if 48 <= c <= 57 then c - 48 else if 97 <= c <= 102 then c - 87 else if 65 <= c <= 70 then c - 55 else -1
  }

  ghost predicate HexDigits(h: Data) {
    forall j :: 0 <= j < |h| ==> HexValue(h[j]) >= 0
  }

  predicate IsHex(h: Data) {
    |h| == 4 && forall j :: 0 <= j < 4 ==> HexValue(h[j]) >= 0
  }

  /** The number written by the first `i` digits. */
  function HexPrefix(h: Data, i: nat): (n: int)
    requires i <= |h|
    ensures (forall j :: 0 <= j < i ==> HexValue(h[j]) >= 0) ==> n >= 0
  {
    if i == 0 then 0 else HexPrefix(h, i - 1) * 16 + HexValue(h[i - 1])
  }

  function HexNumber(h: Data): nat
    requires IsHex(h)
  {
    HexPrefix(h, 4)
  }

  // ---------- the grammar ----------

  /** One character of a string literal: an unescaped byte, a two-character escape, a `\u` escape or a
      surrogate pair. */
  datatype Piece = Raw(b: Byte) | Simple(c: Byte) | Unicode(h: Data) | Pair(high: Data, low: Data)

  /** The byte a two-character escape stands for. */
  function SimpleValue(c: Byte): Option<Byte> {
    if c == QUOTE || c == BACKSLASH || c == 47 then Some(c)
    else if c == 98 then Some(8)
    else if c == 102 then Some(12)
    else if c == 110 then Some(10)
    else if c == 114 then Some(13)
    else if c == 116 then Some(9)
    else None
  }

  predicate IsHigh(n: nat) { 0xD800 <= n <= 0xDBFF }

  predicate IsLow(n: nat) { 0xDC00 <= n <= 0xDFFF }

  predicate PieceOk(p: Piece) {
    match p
    case Raw(b) => b >= 0x20 && b != QUOTE && b != BACKSLASH
    case Simple(c) => SimpleValue(c).Some?
    case Unicode(h) => IsHex(h) && Encodable(HexNumber(h))
    case Pair(high, low) => IsHex(high) && IsHex(low) && IsHigh(HexNumber(high)) && IsLow(HexNumber(low))
  }

  /** The well-formed characters. */
  type Character = p: Piece | PieceOk(p) witness Raw(65)

  function PieceText(p: Piece): (s: Data)
    ensures s != []
  {
    match p
    case Raw(b) => [b]
    case Simple(c) => [BACKSLASH, c]
    case Unicode(h) => [BACKSLASH, LETTER_U] + h
    case Pair(high, low) => [BACKSLASH, LETTER_U] + high + [BACKSLASH, LETTER_U] + low
  }

  /** The code point of a surrogate pair. */
  function Combine(high: nat, low: nat): (cp: nat)
    requires IsHigh(high) && IsLow(low)
    ensures 0x1_0000 <= cp <= 0x10FFFF && Encodable(cp)
  {
    0x1_0000 + (high - 0xD800) * 0x400 + (low - 0xDC00)
  }

  function PieceValue(p: Character): (s: Data)
    ensures s != []
  {
    match p
    case Raw(b) => [b]
    case Simple(c) => [SimpleValue(c).value]
    case Unicode(h) => Encode(HexNumber(h))
    case Pair(high, low) => Encode(Combine(HexNumber(high), HexNumber(low)))
  }

  function PiecesText(ps: seq<Character>): Data {
    if ps == [] then [] else PieceText(ps[0]) + PiecesText(ps[1..])
  }

  function PiecesValue(ps: seq<Character>): Data
  {
    if ps == [] then [] else PieceValue(ps[0]) + PiecesValue(ps[1..])
  }

  /** A whole string literal. */
  function StringText(ps: seq<Character>): (s: Data)
    ensures |s| >= 2 && s[0] == QUOTE
  {
    [QUOTE] + PiecesText(ps) + [QUOTE]
  }

  // ---------- the parser ----------

  /** The value of a literal and its length, both from behind the opening quote; the length counts the
      closing quote. `None` is a parse error. */
  function ParseBody(s: Data): (r: Option<(Data, nat)>)
    ensures r.Some? ==> 0 < r.value.1 <= |s|
    decreases |s|, 3
  {
    if s == [] then None
    else if s[0] == QUOTE then Some(([], 1))
    else if s[0] < 0x20 then None
    else if s[0] != BACKSLASH then Continue([s[0]], 1, s)
    else ParseEscape(s)
  }

  /** At a backslash. */
  function ParseEscape(s: Data): (r: Option<(Data, nat)>)
    ensures r.Some? ==> 0 < r.value.1 <= |s|
    decreases |s|, 2
  {
    if |s| < 2 then None
    else if s[1] == LETTER_U then ParseUnicode(s)
    else if SimpleValue(s[1]).None? then None
    else Continue([SimpleValue(s[1]).value], 2, s)
  }

  /** At a `\u` escape. */
  function ParseUnicode(s: Data): (r: Option<(Data, nat)>)
    ensures r.Some? ==> 0 < r.value.1 <= |s|
    decreases |s|, 1
  {
    if |s| < 6 || !IsHex(s[2..6]) then None
    else if IsHigh(HexNumber(s[2..6])) then ParsePair(s, HexNumber(s[2..6]))
    else if Encodable(HexNumber(s[2..6])) then Continue(Encode(HexNumber(s[2..6])), 6, s)
    else None
  }

  /** Behind the high half of a surrogate pair. */
  function ParsePair(s: Data, high: nat): (r: Option<(Data, nat)>)
    requires IsHigh(high)
    ensures r.Some? ==> 0 < r.value.1 <= |s|
    decreases |s|, 0, 1
  {
    if |s| < 12 || s[6] != BACKSLASH || s[7] != LETTER_U || !IsHex(s[8..12]) || !IsLow(HexNumber(s[8..12])) then None
    else Continue(Encode(Combine(high, HexNumber(s[8..12]))), 12, s)
  }

  /** One character has been read over `k` bytes; the rest of the literal follows. */
  function Continue(value: Data, k: nat, s: Data): (r: Option<(Data, nat)>)
    requires 0 < k <= |s|
    ensures r.Some? ==> 0 < r.value.1 <= |s|
    decreases |s|, 0, 0
  {
    match ParseBody(s[k..])
    case None => None
    case Some((rest, n)) => Some((value + rest, k + n))
  }

  /** A string literal at the front of `s`: value and length. */
  function ParseString(s: Data): (r: Option<(Data, nat)>)
    ensures r.Some? ==> 2 <= r.value.1 <= |s|
  {
    if s == [] || s[0] != QUOTE then None
    else match ParseBody(s[1..]) case None => None case Some((value, n)) => Some((value, n + 1))
  }

  // ---------- every literal of the grammar is parsed ----------

  /** The parser reads character `p` at the front of `s`. */
  ghost predicate Reads(s: Data, p: Character) {
    |PieceText(p)| <= |s| && ParseBody(s) == Continue(PieceValue(p), |PieceText(p)|, s)
  }

  lemma {:induction false} EscapeReads(s: Data)
    requires s != [] && s[0] == BACKSLASH
    ensures ParseBody(s) == ParseEscape(s)
    ensures |s| >= 2 && s[1] == LETTER_U ==> ParseEscape(s) == ParseUnicode(s)
  {
  }

  lemma {:induction false} UnicodeReads(h: Data, rest: Data)
    requires PieceOk(Unicode(h))
    ensures Reads(PieceText(Unicode(h)) + rest, Unicode(h))
  {
    var s := [BACKSLASH, LETTER_U] + h + rest;
    EscapeReads(s);
    assert s[2..6] == h;
  }

  lemma {:induction false} PairReads(high: Data, low: Data, rest: Data)
    requires PieceOk(Pair(high, low))
    ensures Reads(PieceText(Pair(high, low)) + rest, Pair(high, low))
  {
    var s := [BACKSLASH, LETTER_U] + high + [BACKSLASH, LETTER_U] + low + rest;
    EscapeReads(s);
    assert s[2..6] == high && s[8..12] == low;
    assert ParseUnicode(s) == ParsePair(s, HexNumber(high));
  }

  /** Every well-formed character is read, whatever follows it. */
  lemma {:induction false} CharacterReads(p: Character, rest: Data)
    ensures Reads(PieceText(p) + rest, p)
  {
    match p
    case Raw(b) =>
    case Simple(c) => EscapeReads([BACKSLASH, c] + rest);
    case Unicode(h) => UnicodeReads(h, rest);
    case Pair(high, low) => PairReads(high, low, rest);
  }

  /** Every literal is parsed to its value, and exactly its text is consumed. */
  lemma {:induction false} ParseBodyComplete(ps: seq<Character>, rest: Data)
    ensures ParseBody(PiecesText(ps) + [QUOTE] + rest) == Some((PiecesValue(ps), |PiecesText(ps)| + 1))
  {
    if ps == [] {
      assert (PiecesText(ps) + [QUOTE] + rest)[0] == QUOTE;
    } else {
      var tail := PiecesText(ps[1..]) + [QUOTE] + rest;
      Assoc(PieceText(ps[0]), PiecesText(ps[1..]), [QUOTE]);
      Assoc(PieceText(ps[0]), PiecesText(ps[1..]) + [QUOTE], rest);
      ParseBodyComplete(ps[1..], rest);
      CompleteStep(ps[0], tail, PiecesValue(ps[1..]), |PiecesText(ps[1..])| + 1);
    }
  }

  lemma {:induction false} CompleteStep(p: Character, tail: Data, value: Data, n: nat)
    requires ParseBody(tail) == Some((value, n))
    ensures ParseBody(PieceText(p) + tail) == Some((PieceValue(p) + value, |PieceText(p)| + n))
  {
    CharacterReads(p, tail);
    AfterFront(PieceText(p), tail);
  }

  lemma {:induction false} AfterFront(t: Data, tail: Data)
    ensures (t + tail)[|t|..] == tail
  {
  }

  // ---------- only literals of the grammar are parsed ----------

  /** The character the parser reads at the front of `s`. */
  lemma {:induction false} FirstCharacter(s: Data) returns (p: Character)
    requires ParseBody(s).Some? && s[0] != QUOTE
    ensures Reads(s, p) && PieceText(p) <= s
  {
    if s[0] != BACKSLASH {
      p := Raw(s[0]);
    } else {
      EscapeReads(s);
      if s[1] == LETTER_U {
        p := FirstUnicode(s);
      } else {
        p := Simple(s[1]);
      }
    }
  }

  lemma {:induction false} FirstUnicode(s: Data) returns (p: Character)
    requires |s| >= 2 && s[0] == BACKSLASH && s[1] == LETTER_U && ParseBody(s) == ParseUnicode(s)
        && ParseUnicode(s).Some?
    ensures Reads(s, p) && PieceText(p) <= s
  {
    var cp := HexNumber(s[2..6]);
    if IsHigh(cp) {
      assert ParseUnicode(s) == ParsePair(s, cp);
      p := Pair(s[2..6], s[8..12]);
    } else {
      p := Unicode(s[2..6]);
    }
  }

  /** Whatever is parsed is a literal of the grammar with that value. */
  lemma {:induction false} ParseBodySound(s: Data) returns (ps: seq<Character>)
    requires ParseBody(s).Some?
    ensures ReadAs(s, ps)
  {
    if s[0] == QUOTE {
      ps := [];
      assert s[..1] == [QUOTE];
    } else {
      var p := FirstCharacter(s);
      assert ParseBody(s[|PieceText(p)|..]).Some?;
      var qs := ParseBodySound(s[|PieceText(p)|..]);
      SoundStep(s, p, qs);
      ps := [p] + qs;
    }
  }

  /** `s` starts with these characters and a quote, and parses to their value. */
  ghost predicate ReadAs(s: Data, ps: seq<Character>) {
    && ParseBody(s) == Some((PiecesValue(ps), |PiecesText(ps)| + 1))
    && PiecesText(ps) + [QUOTE] <= s
  }

  lemma {:induction false} SoundStep(s: Data, p: Character, qs: seq<Character>)
    requires Reads(s, p) && PieceText(p) <= s && ReadAs(s[|PieceText(p)|..], qs)
    ensures ReadAs(s, [p] + qs)
  {
    Cons(p, qs);
    JoinFront(s, PieceText(p), PiecesText(qs));
  }

  lemma {:induction false} Cons(p: Character, qs: seq<Character>)
    ensures PiecesText([p] + qs) == PieceText(p) + PiecesText(qs)
    ensures PiecesValue([p] + qs) == PieceValue(p) + PiecesValue(qs)
  {
    assert ([p] + qs)[1..] == qs;
  }

  lemma {:induction false} JoinFront(s: Data, t: Data, a: Data)
    requires t <= s && a + [QUOTE] <= s[|t|..]
    ensures t + a + [QUOTE] <= s
  {
    assert s == t + s[|t|..];
  }

  /** The parser accepts exactly the literals of the grammar: `s` parses to `value` over `n` bytes if and
      only if its first `n` bytes are a literal with that value. */
  lemma {:induction false} ParserExact(s: Data, value: Data, n: nat)
    ensures ParseString(s) == Some((value, n)) <==> exists ps :: IsLiteral(s, ps, value, n)
  {
    if ParseString(s) == Some((value, n)) {
      var ps := ParsedIsLiteral(s);
    }
    if exists ps :: IsLiteral(s, ps, value, n) {
      var ps :| IsLiteral(s, ps, value, n);
      LiteralIsParsed(s, ps, value, n);
    }
  }

  ghost predicate IsLiteral(s: Data, ps: seq<Character>, value: Data, n: nat) {
    n <= |s| && s[..n] == StringText(ps) && value == PiecesValue(ps)
  }

  lemma {:induction false} LiteralIsParsed(s: Data, ps: seq<Character>, value: Data, n: nat)
    requires IsLiteral(s, ps, value, n)
    ensures ParseString(s) == Some((value, n))
  {
    ParseStringComplete(ps, s[n..]);
    assert s == s[..n] + s[n..];
  }

  lemma {:induction false} ParsedIsLiteral(s: Data) returns (ps: seq<Character>)
    requires ParseString(s).Some?
    ensures IsLiteral(s, ps, ParseString(s).value.0, ParseString(s).value.1)
  {
    ps := ParseBodySound(s[1..]);
    WithQuote(s, PiecesText(ps));
  }

  lemma {:induction false} WithQuote(s: Data, body: Data)
    requires s != [] && s[0] == QUOTE && body + [QUOTE] <= s[1..]
    ensures s[..|body| + 2] == [QUOTE] + body + [QUOTE]
  {
    assert s == [s[0]] + s[1..];
  }

  lemma {:induction false} ParseStringComplete(ps: seq<Character>, rest: Data)
    ensures ParseString(StringText(ps) + rest) == Some((PiecesValue(ps), |StringText(ps)|))
  {
    var body := PiecesText(ps) + [QUOTE] + rest;
    ParseBodyComplete(ps, rest);
    Assoc([QUOTE], PiecesText(ps), [QUOTE]);
    Assoc([QUOTE], PiecesText(ps) + [QUOTE], rest);
    BehindQuote(body);
  }

  lemma {:induction false} BehindQuote(body: Data)
    ensures ([QUOTE] + body)[1..] == body
  {
  }

  /** Decoded strings contain no NUL, so the C string holds the whole value. */
  lemma {:induction false} ValuesNulFree(ps: seq<Character>)
    ensures forall i :: 0 <= i < |PiecesValue(ps)| ==> PiecesValue(ps)[i] != 0
  {
    if ps != [] {
      ValuesNulFree(ps[1..]);
    }
  }

  // ---------- the printer ----------

  /** The contents of a C string. */
  type NulFreeData = s: Data | forall i :: 0 <= i < |s| ==> s[i] != 0

  function HexDigit(n: nat): (c: Byte)
    requires n < 16
    ensures HexValue(c) == n
  {
    if n < 10 then 48 + n else 87 + n
  }

  /** `%04x` of a byte. */
  function HexText(c: Byte): (h: Data)
    ensures IsHex(h) && HexNumber(h) == c
  {
    var h: Data := [48, 48, HexDigit(c / 16), HexDigit(c % 16)];
    HexOfTwo(h, c / 16, c % 16);
    h
  }

  lemma {:induction false} HexOfTwo(h: Data, x: nat, y: nat)
    requires x < 16 && y < 16 && h == [48, 48, HexDigit(x), HexDigit(y)]
    ensures IsHex(h) && HexNumber(h) == x * 16 + y
  {
    assert HexPrefix(h, 1) == HexPrefix(h, 0) * 16 + 0;
    assert HexPrefix(h, 2) == HexPrefix(h, 1) * 16 + 0;
    assert HexPrefix(h, 3) == HexPrefix(h, 2) * 16 + x;
    assert HexPrefix(h, 4) == HexPrefix(h, 3) * 16 + y;
  }

  /** How the printer writes one byte. */
  function PrintPiece(c: Byte): (p: Character)
    requires c != 0
    ensures PieceValue(p) == [c]
  {
    if c == QUOTE || c == BACKSLASH then Simple(c)
    else if c == 10 then Simple(110)
    else if c == 13 then Simple(114)
    else if c == 9 then Simple(116)
    else if c < 0x20 then Unicode(HexText(c))
    else Raw(c)
  }

  function PrintPieces(s: NulFreeData): (ps: seq<Character>)
    ensures |ps| == |s| && forall i :: 0 <= i < |ps| ==> ps[i] == PrintPiece(s[i])
  {
    seq(|s|, i requires 0 <= i < |s| => PrintPiece(s[i]))
  }

  lemma {:induction false} PiecesTextSnoc(ps: seq<Character>, p: Character)
    ensures PiecesText(ps + [p]) == PiecesText(ps) + PieceText(p)
  {
    if ps == [] {
      assert [] + [p] == [p];
    } else {
      assert (ps + [p])[1..] == ps[1..] + [p];
      PiecesTextSnoc(ps[1..], p);
      assert PieceText(ps[0]) + (PiecesText(ps[1..]) + PieceText(p))
          == PieceText(ps[0]) + PiecesText(ps[1..]) + PieceText(p);
    }
  }

  /** `gd_tok_json_write_string`. */
  method WriteString(s: NulFreeData) returns (out: Data)
    ensures out == StringText(PrintPieces(s))
  {
    var body := WriteBody(s);
    out := [QUOTE] + body + [QUOTE];
  }

  /** The printer's loop. */
  method WriteBody(s: NulFreeData) returns (out: Data)
    ensures out == PiecesText(PrintPieces(s))
  {
    out := [];
    var i := 0;
    while i < |s|
      invariant 0 <= i <= |s| && out == PiecesText(PrintPieces(s)[..i])
    {
      var t := WriteByte(s[i]);
      PiecesTextSnoc(PrintPieces(s)[..i], PrintPiece(s[i]));
      assert PrintPieces(s)[..i + 1] == PrintPieces(s)[..i] + [PrintPiece(s[i])];
      out := out + t;
      i := i + 1;
    }
    assert PrintPieces(s)[..|s|] == PrintPieces(s);
  }

  /** One round of the printer's loop. */
  method WriteByte(c: Byte) returns (t: Data)
    requires c != 0
    ensures t == PieceText(PrintPiece(c))
  {
    if c == QUOTE || c == BACKSLASH {
      t := [BACKSLASH] + [c];
    } else if c == 10 {
      t := [BACKSLASH, 110];
    } else if c == 13 {
      t := [BACKSLASH, 114];
    } else if c == 9 {
      t := [BACKSLASH, 116];
    } else if c < 0x20 {
      t := [BACKSLASH, LETTER_U] + HexText(c);
    } else {
      t := [c];
    }
  }

  lemma {:induction false} PrintedValue(s: NulFreeData)
    ensures PiecesValue(PrintPieces(s)) == s
  {
    if s != [] {
      PrintedValue(s[1..]);
      assert PrintPieces(s)[1..] == PrintPieces(s[1..]);
      assert s == [s[0]] + s[1..];
    }
  }

  /** Printing and parsing are inverse: for every NUL-free string, parsing what was printed gives the
      string back and consumes exactly what was printed, whatever follows. */
  lemma {:induction false} PrintParse(s: NulFreeData, rest: Data)
    ensures var text := StringText(PrintPieces(s)); ParseString(text + rest) == Some((s, |text|))
  {
    PrintedValue(s);
    ParseStringComplete(PrintPieces(s), rest);
  }
}
