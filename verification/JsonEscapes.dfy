/** The escapes of JSON strings one by one, as sections 7 and 9 of RFC 8259 list them. */
module JsonEscapes {
  import opened Seqs
  import opened Bytes
  import opened JsonString

  /** `"`, `\`, `/`, `b`, `f`, `n`, `r`, `t`, and the bytes they stand for behind a backslash. */
  const NAMES: Data := [34, 92, 47, 98, 102, 110, 114, 116]
  const VALUES: Data := [34, 92, 47, 8, 12, 10, 13, 9]

  const LOWER: Data := [48, 49, 50, 51, 52, 53, 54, 55, 56, 57, 97, 98, 99, 100, 101, 102]
  const UPPER: Data := [48, 49, 50, 51, 52, 53, 54, 55, 56, 57, 65, 66, 67, 68, 69, 70]

  /** Each of the eight escapes reads as its byte. */
  lemma {:induction false} EscapeReadsAs(i: nat, rest: Data)
    requires i < 8
    ensures ParseBody([BACKSLASH, NAMES[i]] + rest) == Continue([VALUES[i]], 2, [BACKSLASH, NAMES[i]] + rest)
  {
    EscapeReads([BACKSLASH, NAMES[i]] + rest);
  }

  /** No other letter than `u` may follow a backslash. */
  lemma {:induction false} UnknownEscape(c: Byte, rest: Data)
    requires c !in NAMES && c != LETTER_U
    ensures ParseBody([BACKSLASH, c] + rest) == None
  {
    assert NAMES[0] == 34 && NAMES[1] == 92 && NAMES[2] == 47 && NAMES[3] == 98 && NAMES[4] == 102 && NAMES[5] == 110
        && NAMES[6] == 114 && NAMES[7] == 116;
    EscapeReads([BACKSLASH, c] + rest);
  }

  /** The hexadecimal digits, in both cases, and nothing else. */
  lemma {:induction false} HexDigitsExact(c: Byte)
    ensures HexValue(c) >= 0 ==> HexValue(c) < 16 && (LOWER[HexValue(c)] == c || UPPER[HexValue(c)] == c)
    ensures forall n :: 0 <= n < 16 ==> HexValue(LOWER[n]) == n && HexValue(UPPER[n]) == n
  {
  }

  /** Four digits, the most significant one first. */
  lemma {:induction false} HexNumberIs(h: Data)
    requires IsHex(h)
    ensures HexNumber(h)
            == HexValue(h[0]) * 0x1000 + HexValue(h[1]) * 0x100 + HexValue(h[2]) * 0x10 + HexValue(h[3])
  {
    assert HexPrefix(h, 2) == HexPrefix(h, 1) * 16 + HexValue(h[1]);
    assert HexPrefix(h, 3) == HexPrefix(h, 2) * 16 + HexValue(h[2]);
  }

  /** Surrogate pairs as UTF-16 forms them: every code point beyond 16 bits has exactly this pair. */
  lemma {:induction false} SurrogatesExact(cp: nat, high: nat, low: nat)
    requires 0x1_0000 <= cp <= 0x10FFFF && IsHigh(high) && IsLow(low)
    ensures Combine(high, low) == cp <==>
            high == 0xD800 + (cp - 0x1_0000) / 0x400 && low == 0xDC00 + (cp - 0x1_0000) % 0x400
  {
  }

  /** What the printer writes for each byte: itself, unless it is a quote, a backslash or a control character. */
  lemma {:induction false} PrintedAs(c: Byte)
    requires c != 0
    ensures c >= 0x20 && c != QUOTE && c != BACKSLASH ==> PieceText(PrintPiece(c)) == [c]
    ensures c == QUOTE || c == BACKSLASH ==> PieceText(PrintPiece(c)) == [BACKSLASH, c]
    ensures c == 9 || c == 10 || c == 13 ==>
              PieceText(PrintPiece(c)) == [BACKSLASH, if c == 9 then 116 else if c == 10 then 110 else 114]
    ensures c < 0x20 && c != 9 && c != 10 && c != 13 ==>
              PieceText(PrintPiece(c)) == [BACKSLASH, LETTER_U, 48, 48, LOWER[c / 16], LOWER[c % 16]]
  {
    assert LOWER[c % 16] == HexDigit(c % 16) && LOWER[c / 16] == HexDigit(c / 16);
  }
}
