/** Rounding up to a multiple of an alignment, in the two forms the repository uses:
    integer division (GDDS shard layout) and bit masks on 64-bit words (arenas). */
module Arith {

  /** `align_up` of the shard writer: divide, then multiply back. */
  function AlignUp(v: nat, a: nat): (r: nat)
    requires a > 0
  {
    (v + a - 1) / a * a
  }

  /** The result is the least multiple of `a` that is not below `v`. */
  lemma {:induction false} AlignUpIsLeast(v: nat, a: nat)
    requires a > 0
    ensures AlignUp(v, a) % a == 0
    ensures v <= AlignUp(v, a) < v + a
    ensures forall m: nat :: m % a == 0 && v <= m ==> AlignUp(v, a) <= m
  {
    var q := (v + a - 1) / a;
    DivMod(v + a - 1, a);
    MulMod(q, a);
    forall m: nat | m % a == 0 && v <= m
      ensures AlignUp(v, a) <= m
    {
      MultipleAbove(q * a, m, q, a);
    }
  }

  /** A multiple of `a` that is above `q * a - a` is at least `q * a`. */
  lemma {:induction false} MultipleAbove(qa: nat, m: nat, q: nat, a: nat)
    requires a > 0 && m % a == 0 && qa == q * a && qa < m + a
    ensures qa <= m
  {
    DivMod(m, a);
    NextMultiple(m / a, q, a);
  }

  /** Multiples keep the order of their quotients, at least `a` apart. */
  lemma {:induction false} NextMultiple(k: nat, q: nat, a: nat)
    ensures if k < q then k * a + a <= q * a else q * a <= k * a
  {
    if k < q {
      MulLe(k + 1, q, a);
      assert (k + 1) * a == k * a + a;
    } else {
      MulLe(q, k, a);
    }
  }

  lemma {:induction false} AlignUpMonotone(v: nat, w: nat, a: nat)
    requires a > 0 && v <= w
    ensures AlignUp(v, a) <= AlignUp(w, a)
  {
    AlignUpIsLeast(v, a);
    AlignUpIsLeast(w, a);
  }

  // ---------- division by a variable ----------

  lemma {:induction false} DivMod(x: nat, a: nat)
    requires a > 0
    ensures x == x / a * a + x % a
    ensures 0 <= x % a < a
  {
  }

  lemma {:induction false} MulLe(x: nat, y: nat, a: nat)
    requires x <= y
    ensures x * a <= y * a
  {
  }

  lemma {:induction false} MulMod(q: nat, a: nat)
    requires a > 0
    ensures q * a % a == 0
    ensures q * a / a == q
  {
    DivUnique(q * a, a, q, 0);
  }

  /** Quotient and remainder are determined by `x == q * a + r`. */
  lemma {:induction false} DivUnique(x: nat, a: nat, q: nat, r: nat)
    requires a > 0 && r < a && x == q * a + r
    ensures x / a == q && x % a == r
  {
    DivMod(x, a);
    var d := x / a - q;
    assert d * a == r - x % a;
    SmallMultiple(d, a);
  }

  lemma {:induction false} SmallMultiple(d: int, a: int)
    requires -a < d * a < a
    ensures d == 0
  {
  }

  // ---------- the mask form ----------

  /** Bitwise conjunction of two non-negative words. */
  function BitAnd(x: nat, y: nat): nat
    decreases x
  {
    if x == 0 || y == 0 then 0
    else 2 * BitAnd(x / 2, y / 2) + (if x % 2 == 1 && y % 2 == 1 then 1 else 0)
  }

  function Pow2(k: nat): (r: nat)
    ensures r > 0
  {
    if k == 0 then 1 else 2 * Pow2(k - 1)
  }

  ghost predicate IsPow2(a: nat) {
    exists k: nat :: a == Pow2(k)
  }

  lemma {:induction false} IsPow2Double(b: nat)
    requires b > 0
    ensures IsPow2(2 * b) <==> IsPow2(b)
  {
    if IsPow2(b) {
      var k: nat :| b == Pow2(k);
      assert 2 * b == Pow2(k + 1);
    }
    if IsPow2(2 * b) {
      var k: nat :| 2 * b == Pow2(k);
      assert b == Pow2(k - 1);
    }
  }

  lemma {:induction false} OddNotPow2(b: nat)
    requires b > 0
    ensures !IsPow2(2 * b + 1)
  {
    forall k: nat
      ensures 2 * b + 1 != Pow2(k)
    {
      assert k > 0 ==> Pow2(k) == 2 * Pow2(k - 1);
    }
  }

  lemma {:induction false} BitAndHalves(x: nat, y: nat)
    requires x > 0 && y > 0 && x % 2 + y % 2 == 1
    ensures BitAnd(x, y) == 2 * BitAnd(x / 2, y / 2)
  {
  }

  /** `(a & (a - 1)) == 0` recognises the powers of two among the positive words. */
  lemma {:induction false} PowerOfTwoTest(a: nat)
    requires a > 0
    ensures BitAnd(a, a - 1) == 0 <==> IsPow2(a)
  {
    var b := a / 2;
    if a == 1 {
      assert a == Pow2(0);
    } else {
      BitAndHalves(a, a - 1);
      if a % 2 == 0 {
        assert (a - 1) / 2 == b - 1 && a == 2 * b;
        PowerOfTwoTest(b);
        IsPow2Double(b);
      } else {
        assert (a - 1) / 2 == b && a == 2 * b + 1;
        BitAndSelf(b);
        OddNotPow2(b);
      }
    }
  }

  function BitOr(x: nat, y: nat): nat {
    var and := BitAnd(x, y);
    if and <= x + y then x + y - and else 0
  }

  /** Bits that do not overlap add up. */
  lemma {:induction false} DisjointOr(x: nat, k: nat, m: nat)
    requires x < Pow2(k)
    ensures BitOr(x, m * Pow2(k)) == x + m * Pow2(k)
  {
    DisjointAnd(x, k, m);
  }

  lemma {:induction false} DisjointAnd(x: nat, k: nat, m: nat)
    requires x < Pow2(k)
    ensures BitAnd(x, m * Pow2(k)) == 0
    decreases k
  {
    if x > 0 && m > 0 {
      assert m * Pow2(k) == 2 * (m * Pow2(k - 1));
      DisjointAnd(x / 2, k - 1, m);
    }
  }

  lemma {:induction false} BitAndSelf(x: nat)
    ensures BitAnd(x, x) == x
  {
    if x > 0 {
      BitAndSelf(x / 2);
    }
  }

  lemma {:induction false} BitAndOnes(x: nat, k: nat)
    requires x < Pow2(k)
    ensures BitAnd(x, Pow2(k) - 1) == x
  {
    if x > 0 {
      assert k > 0;
      BitAndOnes(x / 2, k - 1);
      assert (Pow2(k) - 1) / 2 == Pow2(k - 1) - 1;
    }
  }

  /** In `k`-bit words the complement of `a - 1` is `2^k - a`; masking with it rounds
      down to a multiple of `a = 2^j`. */
  lemma {:induction false} MaskRoundsDown(x: nat, j: nat, k: nat)
    requires j <= k && x < Pow2(k)
    ensures Pow2(j) <= Pow2(k)
    ensures BitAnd(x, Pow2(k) - Pow2(j)) == x - x % Pow2(j)
  {
    Pow2Le(j, k);
    if j == 0 {
      BitAndOnes(x, k);
    } else {
      MaskRoundsDown(x / 2, j - 1, k - 1);
      MaskStep(x, Pow2(j - 1), Pow2(k - 1));
    }
  }

  lemma {:induction false} MaskStep(x: nat, b: nat, c: nat)
    requires 0 < b <= c && BitAnd(x / 2, c - b) == x / 2 - x / 2 % b
    ensures BitAnd(x, 2 * c - 2 * b) == x - x % (2 * b)
  {
    HalveRemainder(x, b);
    assert (2 * c - 2 * b) / 2 == c - b && (2 * c - 2 * b) % 2 == 0;
    if x > 0 && c > b {
      assert BitAnd(x, 2 * c - 2 * b) == 2 * BitAnd(x / 2, c - b);
    } else {
      assert BitAnd(x, 2 * c - 2 * b) == 0;
    }
  }

  lemma {:induction false} HalveRemainder(x: nat, b: nat)
    requires b > 0
    ensures x % (2 * b) == 2 * (x / 2 % b) + x % 2
  {
    var q, r := x / 2 / b, x / 2 % b;
    DivMod(x / 2, b);
    assert q * (2 * b) == 2 * (q * b);
    DivUnique(x, 2 * b, q, 2 * r + x % 2);
  }

  lemma {:induction false} Pow2Le(j: nat, k: nat)
    requires j <= k
    ensures Pow2(j) <= Pow2(k)
  {
    if j < k {
      Pow2Le(j, k - 1);
    }
  }

  const WORD_BITS: nat := 64
  const WORD: nat := 0x1_0000_0000_0000_0000

  lemma {:induction false} WordIsPow2()
    ensures Pow2(WORD_BITS) == WORD
  {
    assert Pow2(8) == 0x100;
    assert Pow2(16) == 0x1_0000 by { Pow2Add(8, 8); }
    assert Pow2(32) == 0x1_0000_0000 by { Pow2Add(16, 16); }
    Pow2Add(32, 32);
  }

  lemma {:induction false} Pow2Add(j: nat, k: nat)
    ensures Pow2(j + k) == Pow2(j) * Pow2(k)
  {
    if j > 0 {
      Pow2Add(j - 1, k);
      assert 2 * (Pow2(j - 1) * Pow2(k)) == 2 * Pow2(j - 1) * Pow2(k);
    }
  }

  /** `align_up` of the arenas on 64-bit words: the sum wraps, then the mask is applied. */
  function AlignUpMask(v: nat, a: nat): nat
    requires 0 < a <= WORD
  {
    BitAnd((v + a - 1) % WORD, WORD - a)
  }

  /** For a power of two and a sum that does not wrap, the mask form is the arithmetic round-up. */
  lemma {:induction false} MaskIsAlignUp(v: nat, a: nat)
    requires 0 < a < WORD && IsPow2(a)
    requires v + a - 1 < WORD
    ensures AlignUpMask(v, a) == AlignUp(v, a)
  {
    MaskWord(v + a - 1, a);
    RoundDown(v + a - 1, a);
    Unwrapped(v + a - 1);
  }

  lemma {:induction false} Unwrapped(x: nat)
    requires x < WORD
    ensures x % WORD == x
  {
  }

  /** Masking a word with the complement of `a - 1` rounds it down to a multiple of `a`. */
  lemma {:induction false} MaskWord(x: nat, a: nat)
    requires 0 < a < WORD && IsPow2(a) && x < WORD
    ensures BitAnd(x, WORD - a) == x - x % a
  {
    WordIsPow2();
    var j: nat :| a == Pow2(j);
    if j > WORD_BITS {
      Pow2Le(WORD_BITS, j);
    }
    MaskRoundsDown(x, j, WORD_BITS);
  }

  lemma {:induction false} RoundDown(x: nat, a: nat)
    requires a > 0
    ensures x - x % a == x / a * a
  {
    DivMod(x, a);
  }
}
