/** UTF-8 (section 3 of RFC 3629) as `gd_tok_append_utf8` writes it. */
module Utf8 {
  import opened Arith
  import opened Bytes

  /** Code points that have an encoding here: no NUL and no surrogates. */
  predicate Encodable(cp: nat) {
    0 < cp <= 0x10FFFF && !(0xD800 <= cp <= 0xDFFF)
  }

  function Cont(x: nat): Byte { 0x80 + x % 0x40 }

  /** The encoded code point. */
  function Encode(cp: nat): (s: Data)
    requires cp <= 0x10FFFF
    ensures 1 <= |s| <= 4
  {
    if cp <= 0x7F then [cp]
    else if cp <= 0x7FF then [0xC0 + cp / 0x40, Cont(cp)]
    else if cp <= 0xFFFF then [0xE0 + cp / 0x1000, Cont(cp / 0x40), Cont(cp)]
    else [0xF0 + cp / 0x4_0000, Cont(cp / 0x1000), Cont(cp / 0x40), Cont(cp)]
  }

  predicate IsCont(b: Byte) { 0x80 <= b < 0xC0 }

  function Two(a: int, b: int): int { (a - 0xC0) * 0x40 + (b - 0x80) }

  function Three(a: int, b: int, c: int): int { (a - 0xE0) * 0x1000 + (b - 0x80) * 0x40 + (c - 0x80) }

  function Four(a: int, b: int, c: int, d: int): int {
    (a - 0xF0) * 0x4_0000 + (b - 0x80) * 0x1000 + (c - 0x80) * 0x40 + (d - 0x80)
  }

  /** Decoding the first code point: its value and its length, 0 for a malformed one; overlong and
      surrogate forms are malformed. */
  function Decode(s: Data): (int, nat) {
    if |s| >= 1 && s[0] < 0x80 then (s[0], 1)
    else if |s| >= 2 && 0xC2 <= s[0] < 0xE0 && IsCont(s[1]) then (Two(s[0], s[1]), 2)
    else if |s| >= 3 && 0xE0 <= s[0] < 0xF0 && IsCont(s[1]) && IsCont(s[2])
            && (s[0] == 0xE0 ==> s[1] >= 0xA0) && (s[0] == 0xED ==> s[1] < 0xA0) then (Three(s[0], s[1], s[2]), 3)
    else if |s| >= 4 && 0xF0 <= s[0] < 0xF5 && IsCont(s[1]) && IsCont(s[2]) && IsCont(s[3])
            && (s[0] == 0xF0 ==> s[1] >= 0x90) && (s[0] == 0xF4 ==> s[1] < 0x90) then (Four(s[0], s[1], s[2], s[3]), 4)
    else (0, 0)
  }

  /** An independent decoder gives every encodable code point back, whatever follows. */
  lemma {:induction false} DecodeEncode(cp: nat, rest: Data)
    requires Encodable(cp)
    ensures Decode(Encode(cp) + rest) == (cp, |Encode(cp)|)
  {
    if cp > 0xFFFF {
      assert cp == cp / 0x4_0000 * 0x4_0000 + cp / 0x1000 % 0x40 * 0x1000 + cp / 0x40 % 0x40 * 0x40 + cp % 0x40;
    } else if cp > 0x7FF {
      assert cp == cp / 0x1000 * 0x1000 + cp / 0x40 % 0x40 * 0x40 + cp % 0x40;
    }
  }

  /** And what the decoder accepts is exactly an encoding. */
  lemma {:induction false} EncodeDecode(s: Data)
    ensures var (cp, n) := Decode(s); n > 0 && cp > 0 ==> Encodable(cp) && n <= |s| && Encode(cp) == s[..n]
  {
    var n := Decode(s).1;
    if n == 1 {
      assert s[..1] == [s[0]];
    } else if n == 2 {
      assert s[..2] == [s[0], s[1]];
    } else if n == 3 {
      ThreeBack(s[0], s[1], s[2]);
      assert s[..3] == [s[0], s[1], s[2]];
    } else if n == 4 {
      FourBack(s[0], s[1], s[2], s[3]);
      assert s[..4] == [s[0], s[1], s[2], s[3]];
    }
  }

  lemma {:induction false} ThreeBack(a: Byte, b: Byte, c: Byte)
    requires 0xE0 <= a < 0xF0 && IsCont(b) && IsCont(c) && (a == 0xE0 ==> b >= 0xA0) && (a == 0xED ==> b < 0xA0)
    ensures var cp := Three(a, b, c);
            0x7FF < cp <= 0xFFFF && Encodable(cp) && cp / 0x1000 == a as int - 0xE0 && Cont(cp / 0x40) == b
              && Cont(cp) == c
  {
    var x, y, z := a as int - 0xE0, b as int - 0x80, c as int - 0x80;
    assert Three(a, b, c) == (x * 0x40 + y) * 0x40 + z;
    assert Three(a, b, c) / 0x40 == x * 0x40 + y;
  }

  lemma {:induction false} FourBack(a: Byte, b: Byte, c: Byte, d: Byte)
    requires 0xF0 <= a < 0xF5 && IsCont(b) && IsCont(c) && IsCont(d) && (a == 0xF0 ==> b >= 0x90)
        && (a == 0xF4 ==> b < 0x90)
    ensures var cp := Four(a, b, c, d);
            && 0xFFFF < cp <= 0x10FFFF && cp / 0x4_0000 == a as int - 0xF0
            && Cont(cp / 0x1000) == b && Cont(cp / 0x40) == c && Cont(cp) == d
  {
    var w, x, y, z := a as int - 0xF0, b as int - 0x80, c as int - 0x80, d as int - 0x80;
    assert Four(a, b, c, d) == ((w * 0x40 + x) * 0x40 + y) * 0x40 + z;
    assert Four(a, b, c, d) / 0x40 == (w * 0x40 + x) * 0x40 + y;
    assert Four(a, b, c, d) / 0x1000 == w * 0x40 + x;
  }

  // ---------- the shifts and masks of the code ----------

  /** `prefix | x` for a prefix whose low bits are free. */
  lemma {:induction false} Prefix(m: nat, k: nat, x: nat)
    requires x < Pow2(k)
    ensures BitOr(x, m * Pow2(k)) == m * Pow2(k) + x
  {
    DisjointOr(x, k, m);
  }

  lemma {:induction false} SmallPows()
    ensures Pow2(3) == 8 && Pow2(4) == 16 && Pow2(5) == 32 && Pow2(6) == 64
  {
    assert Pow2(3) == 2 * Pow2(2) && Pow2(2) == 2 * Pow2(1) && Pow2(1) == 2 * Pow2(0);
    assert Pow2(4) == 2 * Pow2(3) && Pow2(5) == 2 * Pow2(4) && Pow2(6) == 2 * Pow2(5);
  }

  /** The bytes as the code computes them: shifts, the mask `0x3F`, and bitwise or with the prefix. */
  function EncodeBits(cp: nat): seq<nat>
    requires cp <= 0x10FFFF
  {
    if cp <= 0x7F then [cp]
    else if cp <= 0x7FF then [BitOr(cp / 0x40, 0xC0), BitOr(cp % 0x40, 0x80)]
    else if cp <= 0xFFFF then [BitOr(cp / 0x1000, 0xE0), BitOr(cp / 0x40 % 0x40, 0x80), BitOr(cp % 0x40, 0x80)]
    else [BitOr(cp / 0x4_0000, 0xF0), BitOr(cp / 0x1000 % 0x40, 0x80), BitOr(cp / 0x40 % 0x40, 0x80),
      BitOr(cp % 0x40, 0x80)]
  }

  lemma {:induction false} BitsAreEncode(cp: nat)
    requires cp <= 0x10FFFF
    ensures EncodeBits(cp) == Encode(cp)
  {
    SmallPows();
    Prefix(2, 6, cp % 0x40);
    Prefix(2, 6, cp / 0x40 % 0x40);
    Prefix(2, 6, cp / 0x1000 % 0x40);
    if 0x7F < cp <= 0x7FF {
      Prefix(6, 5, cp / 0x40);
    } else if 0x7FF < cp <= 0xFFFF {
      Prefix(14, 4, cp / 0x1000);
    } else if 0xFFFF < cp {
      Prefix(30, 3, cp / 0x4_0000);
    }
  }
}
