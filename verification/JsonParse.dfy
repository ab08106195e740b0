/** The string parser over a C string with a moving cursor (`gd_tok_json_parse_string`). */
module JsonParse {
  import opened Arith
  import opened Seqs
  import opened Bytes
  import opened Utf8
  import opened JsonString
  import opened JsonBuffer

  /** The byte under the cursor; the terminating NUL behind the last one. */
  function Peek(text: Data, p: nat): Byte {
    if p < |text| then text[p] else 0
  }

  /** `gd_tok_parse_u_escape`. */
  method ParseUEscape(text: NulFreeData, p: nat) returns (cp: Option<nat>)
    requires p <= |text|
    ensures cp.Some? <==> p + 4 <= |text| && IsHex(text[p..p + 4])
    ensures cp.Some? ==> cp.value == HexNumber(text[p..p + 4])
  {
    var value: nat := 0;
    for i := 0 to 4
      invariant p + i <= |text| && HexDigits(text[p..p + i])
      invariant value == HexPrefix(text[p..p + i], i)
    {
      var hv := HexValue(Peek(text, p + i));
      if hv < 0 {
        if p + 4 <= |text| {
          assert text[p..p + 4][i] == text[p + i];
        }
        return None;
      }
      ShiftIn(value, hv);
      NextDigit(text, p, i);
      value := BitOr(hv, value * 16);
    }
    cp := Some(value);
  }

  lemma {:induction false} NextDigit(text: Data, p: nat, i: nat)
    requires p + i < |text| && HexDigits(text[p..p + i]) && HexValue(text[p + i]) >= 0
    ensures HexDigits(text[p..p + (i + 1)])
    ensures HexPrefix(text[p..p + (i + 1)], i + 1) == HexPrefix(text[p..p + i], i) * 16 + HexValue(text[p + i])
  {
    assert text[p..p + (i + 1)] == text[p..p + i] + [text[p + i]];
    HexPrefixSnoc(text[p..p + i], text[p + i]);
  }

  /** `(cp << 4) | hv`. */
  lemma {:induction false} ShiftIn(value: nat, hv: nat)
    requires hv < 16
    ensures BitOr(hv, value * 16) == value * 16 + hv
  {
    SmallPows();
    DisjointOr(hv, 4, value);
  }

  lemma {:induction false} HexPrefixSnoc(h: Data, c: Byte)
    ensures HexPrefix(h + [c], |h| + 1) == HexPrefix(h, |h|) * 16 + HexValue(c)
  {
    HexPrefixSame(h, [c], |h|);
  }

  lemma {:induction false} HexPrefixSame(h: Data, t: Data, i: nat)
    requires i <= |h|
    ensures HexPrefix(h + t, i) == HexPrefix(h, i)
  {
    if i > 0 {
      HexPrefixSame(h, t, i - 1);
    }
  }

  lemma {:induction false} TailAt(text: Data, p: nat)
    requires p <= |text|
    ensures |text[p..]| == |text| - p
    ensures forall k :: 0 <= k < |text| - p ==> text[p..][k] == text[p + k]
    ensures forall i, j :: 0 <= i <= j <= |text| - p ==> text[p..][i..j] == text[p + i..p + j]
  {
  }

  /** What the parser sees of a `\u` escape at position `p`. */
  lemma {:induction false} UnicodeAt(text: Data, p: nat)
    requires p + 2 <= |text| && text[p] == BACKSLASH && text[p + 1] == LETTER_U
    ensures var s := text[p..];
            && (p + 6 > |text| || !IsHex(text[p + 2..p + 6]) ==> ParseUnicode(s).None?)
            && (p + 6 <= |text| && IsHex(text[p + 2..p + 6]) ==>
                  var cp := HexNumber(text[p + 2..p + 6]);
                  ParseUnicode(s) == if IsHigh(cp) then ParsePair(s, cp)
                    else if Encodable(cp) then Continue(Encode(cp), 6, s) else None)
  {
    TailAt(text, p);
  }

  lemma {:induction false} PairAt(text: Data, p: nat, high: nat)
    requires p + 6 <= |text| && IsHigh(high)
    ensures ParsePair(text[p..], high) ==
            if p + 12 > |text| || text[p + 6] != BACKSLASH || text[p + 7] != LETTER_U || !IsHex(text[p + 8..p + 12])
               || !IsLow(HexNumber(text[p + 8..p + 12])) then None
            else Continue(Encode(Combine(high, HexNumber(text[p + 8..p + 12]))), 12, text[p..])
  {
    TailAt(text, p);
  }

  /** A `\u` escape at the cursor, with its low surrogate when it needs one; the code point, and how far
      the cursor moves. */
  method ReadUnicode(text: NulFreeData, p: nat) returns (cp: Option<nat>, next: nat)
    requires p + 2 <= |text| && text[p] == BACKSLASH && text[p + 1] == LETTER_U
    ensures if cp.Some? && Encodable(cp.value)
            then p + 6 <= next <= |text| && ParseUnicode(text[p..]) == Continue(Encode(cp.value), next - p, text[p..])
            else ParseUnicode(text[p..]).None?
  {
    UnicodeAt(text, p);
    next := p + 2;
    cp := ParseUEscape(text, p + 2);
    if cp.None? {
      return;
    }
    next := p + 6;
    if cp.value >= 0xD800 && cp.value <= 0xDBFF {
      cp, next := ReadLow(text, p, cp.value);
    } else if cp.value >= 0xDC00 && cp.value <= 0xDFFF {
      return None, next;
    }
  }

  /** The low half of a surrogate pair. */
  method ReadLow(text: NulFreeData, p: nat, high: nat) returns (cp: Option<nat>, next: nat)
    requires p + 6 <= |text| && IsHigh(high)
    ensures if cp.Some?
            then Encodable(cp.value) && p + 6 <= next <= |text|
              && ParsePair(text[p..], high) == Continue(Encode(cp.value), next - p, text[p..])
            else ParsePair(text[p..], high).None?
  {
    PairAt(text, p, high);
    next := p + 6;
    if Peek(text, p + 6) != BACKSLASH || Peek(text, p + 7) != LETTER_U {
      return None, next;
    }
    next := p + 8;
    var low := ParseUEscape(text, p + 8);
    if low.None? || low.value < 0xDC00 || low.value > 0xDFFF {
      return None, next;
    }
    next := p + 12;
    CombineBits(high, low.value);
    cp := Some(0x1_0000 + BitOr(low.value - 0xDC00, (high - 0xD800) * 0x400));
  }

  /** `((cp - 0xD800) << 10) | (low - 0xDC00)`. */
  lemma {:induction false} CombineBits(high: nat, low: nat)
    requires IsHigh(high) && IsLow(low)
    ensures 0x1_0000 + BitOr(low - 0xDC00, (high - 0xD800) * 0x400) == Combine(high, low)
  {
    SmallPows();
    Pow2Add(5, 5);
    DisjointOr(low - 0xDC00, 10, high - 0xD800);
  }

  /** One round of the parser's loop: the character at the cursor goes to the buffer. */
  method ReadCharacter(text: NulFreeData, p: nat, buf: Buffer) returns (ok: bool, next: nat, ghost value: Data)
    requires p < |text| && text[p] != QUOTE && buf.Valid() && buf.len + 4 < 0x4000_0000_0000_0000
    modifies buf, buf.data
    ensures buf.Valid() && (buf.data == old(buf.data) || fresh(buf.data))
    ensures !ok ==> ParseBody(text[p..]).None?
    ensures ok ==> p < next <= |text| && ParseBody(text[p..]) == Continue(value, next - p, text[p..])
    ensures ok ==> buf.Contents() == old(buf.Contents()) + value && |value| <= 4
  {
    AtCursor(text, p);
    var c := text[p];
    next, value := p, [];
    if c < 0x20 {
      return false, p, [];
    }
    if c != BACKSLASH {
      buf.AppendByte(c);
      return true, p + 1, [c];
    }
    EscapeReads(text[p..]);
    ok, next, value := ReadEscape(text, p, buf);
  }

  method ReadEscape(text: NulFreeData, p: nat, buf: Buffer) returns (ok: bool, next: nat, ghost value: Data)
    requires p < |text| && text[p] == BACKSLASH && buf.Valid() && buf.len + 4 < 0x4000_0000_0000_0000
    modifies buf, buf.data
    ensures buf.Valid() && (buf.data == old(buf.data) || fresh(buf.data))
    ensures !ok ==> ParseEscape(text[p..]).None?
    ensures ok ==> p < next <= |text| && ParseEscape(text[p..]) == Continue(value, next - p, text[p..])
    ensures ok ==> buf.Contents() == old(buf.Contents()) + value && |value| <= 4
  {
    next, value := p, [];
    SecondByte(text, p);
    if Peek(text, p + 1) == LETTER_U {
      var cp;
      cp, next := ReadUnicode(text, p);
      if cp.None? {
        return false, next, [];
      }
      ok := buf.AppendUtf8(cp.value);
      if ok {
        value := Encode(cp.value);
      }
    } else {
      var v := SimpleValue(Peek(text, p + 1));
      if v.None? {
        return false, p + 1, [];
      }
      buf.AppendByte(v.value);
      return true, p + 2, [v.value];
    }
  }

  lemma {:induction false} SecondByte(text: Data, p: nat)
    requires p < |text| && text[p] == BACKSLASH
    ensures var s, c := text[p..], Peek(text, p + 1);
            ParseEscape(s) ==
            if c == LETTER_U then ParseUnicode(s) else if SimpleValue(c).None? then None
              else Continue([SimpleValue(c).value], 2, s)
  {
    if p + 1 < |text| {
      assert text[p..][1] == text[p + 1];
    }
  }

  /** The result when `value` has been collected over the first `k` bytes. */
  function After(value: Data, k: nat, r: Option<(Data, nat)>): Option<(Data, nat)> {
    match r
    case None => None
    case Some((rest, n)) => Some((value + rest, k + n))
  }

  lemma {:induction false} AfterAfter(before: Data, j: nat, value: Data, k: nat, r: Option<(Data, nat)>)
    ensures After(before, j, After(value, k, r)) == After(before + value, j + k, r)
  {
    if r.Some? {
      Assoc(before, value, r.value.0);
    }
  }

  lemma {:induction false} NextCharacter(text: Data, before: Data, start: nat, p: nat, q: nat, value: Data)
    requires start <= p < q <= |text| && ParseBody(text[p..]) == Continue(value, q - p, text[p..])
    ensures After(before, p - start, ParseBody(text[p..])) == After(before + value, q - start, ParseBody(text[q..]))
  {
    assert text[p..][q - p..] == text[q..];
    AfterAfter(before, p - start, value, q - p, ParseBody(text[q..]));
  }

  lemma {:induction false} AfterNothing(r: Option<(Data, nat)>)
    ensures After([], 0, r) == r
  {
    assert r.Some? ==> [] + r.value.0 == r.value.0;
  }

  /** `gd_tok_json_parse_string` at position `pos`: the decoded string and the position behind the closing
      quote; on an error the cursor stays. */
  method ParseStringAt(text: NulFreeData, pos: nat) returns (r: Option<Data>, next: nat)
    requires pos <= |text| < 0x1000_0000_0000_0000
    ensures match ParseString(text[pos..])
            case None => r.None? && next == pos
            case Some((value, n)) => r == Some(value) && next == pos + n <= |text|
  {
    next := pos;
    if Peek(text, pos) != QUOTE {
      return None, pos;
    }
    AtCursor(text, pos);
    assert text[pos..][1..] == text[pos + 1..];
    var end;
    r, end := ParseBodyAt(text, pos + 1);
    if r.Some? {
      next := end;
    }
  }

  /** The parser's loop, behind the opening quote. */
  method ParseBodyAt(text: NulFreeData, start: nat) returns (r: Option<Data>, next: nat)
    requires start <= |text| < 0x1000_0000_0000_0000
    ensures match ParseBody(text[start..])
            case None => r.None?
            case Some((value, n)) => r == Some(value) && next == start + n <= |text|
  {
    var buf := new Buffer();
    var p := start;
    next := start;
    AfterNothing(ParseBody(text[start..]));
    while p < |text| && text[p] != QUOTE
      invariant start <= p <= |text| && buf.Valid() && fresh(buf) && fresh(buf.data)
      invariant buf.len <= 4 * (p - start)
      invariant ParseBody(text[start..]) == After(buf.Contents(), p - start, ParseBody(text[p..]))
      decreases |text| - p
    {
      ghost var before := buf.Contents();
      var ok, q, value := ReadCharacter(text, p, buf);
      if !ok {
        return None, start;
      }
      NextCharacter(text, before, start, p, q, value);
      p := q;
    }
    if p >= |text| {
      return None, start;
    }
    AtQuote(text, p, buf.Contents(), p - start);
    r := Some(buf.data[..buf.len]);
    next := p + 1;
  }

  lemma {:induction false} AtQuote(text: Data, p: nat, value: Data, k: nat)
    requires p < |text| && text[p] == QUOTE
    ensures After(value, k, ParseBody(text[p..])) == Some((value, k + 1))
  {
    AtCursor(text, p);
    assert value + [] == value;
  }

  lemma {:induction false} AtCursor(text: Data, p: nat)
    requires p < |text|
    ensures text[p..] != [] && text[p..][0] == text[p]
  {
  }
}
