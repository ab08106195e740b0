/** Decimal numerals as C and Python print them, and the order of strings. */
module Decimal {
  import opened Seqs

  function Digit(d: nat): char
    requires d < 10
  {
    '0' + d as char
  }

  /** `%u`: no leading zeros. */
  function Digits(n: nat): (s: string)
    ensures s != []
  {
    if n < 10 then [Digit(n)] else Digits(n / 10) + [Digit(n % 10)]
  }

  /** Exactly `w` digits, the low ones. */
  function Fixed(n: nat, w: nat): (s: string)
    ensures |s| == w
  {
    if w == 0 then [] else Fixed(n / 10, w - 1) + [Digit(n % 10)]
  }

  /** `%0wd`: zeros on the left up to width `w`. */
  function Padded(n: nat, w: nat): string {
    Repeat('0', if |Digits(n)| < w then w - |Digits(n)| else 0) + Digits(n)
  }

  function Pow10(w: nat): (r: nat)
    ensures r > 0
  {
    if w == 0 then 1 else 10 * Pow10(w - 1)
  }

  /** A number that fits in `w` digits prints with exactly `w` characters. */
  lemma {:induction false} PaddedIsFixed(n: nat, w: nat)
    requires w > 0 && n < Pow10(w)
    ensures |Digits(n)| <= w && Padded(n, w) == Fixed(n, w)
  {
    if n < 10 {
      FixedZero(w - 1);
      assert n / 10 == 0;
    } else {
      PaddedIsFixed(n / 10, w - 1);
      assert Padded(n, w) == Padded(n / 10, w - 1) + [Digit(n % 10)];
    }
  }

  lemma {:induction false} FixedZero(w: nat)
    ensures Fixed(0, w) == Repeat('0', w)
  {
    if w > 0 {
      FixedZero(w - 1);
    }
  }

  /** The order in which `sort` puts strings: by the first differing character, a prefix first. */
  predicate Less(a: string, b: string) {
    if b == [] then false
    else if a == [] then true
    else if a[0] != b[0] then a[0] < b[0]
    else Less(a[1..], b[1..])
  }

  lemma {:induction false} LessTransitive(a: string, b: string, c: string)
    requires Less(a, b) && Less(b, c)
    ensures Less(a, c)
  {
    if a != [] && a[0] == b[0] == c[0] {
      LessTransitive(a[1..], b[1..], c[1..]);
    }
  }

  lemma {:induction false} LessTrichotomy(a: string, b: string)
    ensures Less(a, b) || a == b || Less(b, a)
    ensures !(Less(a, b) && Less(b, a))
    ensures !Less(a, a)
  {
    if a != [] && b != [] && a[0] == b[0] {
      LessTrichotomy(a[1..], b[1..]);
      assert a == [a[0]] + a[1..] && b == [b[0]] + b[1..];
    }
    if a != [] {
      LessIrreflexive(a);
    }
  }

  lemma {:induction false} LessIrreflexive(a: string)
    ensures !Less(a, a)
  {
    if a != [] {
      LessIrreflexive(a[1..]);
    }
  }

  /** A common prefix does not matter. */
  lemma {:induction false} LessPrefix(p: string, a: string, b: string)
    ensures Less(p + a, p + b) <==> Less(a, b)
  {
    if p == [] {
      assert p + a == a && p + b == b;
    } else {
      LessPrefix(p[1..], a, b);
      assert (p + a)[1..] == p[1..] + a && (p + b)[1..] == p[1..] + b;
    }
  }

  /** Different strings of one length are ordered before whatever follows them. */
  lemma {:induction false} LessSuffix(a: string, b: string, s: string, t: string)
    requires |a| == |b| && Less(a, b)
    ensures Less(a + s, b + t)
  {
    if a[0] == b[0] {
      LessSuffix(a[1..], b[1..], s, t);
      assert (a + s)[1..] == a[1..] + s && (b + t)[1..] == b[1..] + t;
    }
  }

  /** At one width, numeric order is string order. */
  lemma {:induction false} FixedOrder(m: nat, n: nat, w: nat)
    requires m < n < Pow10(w)
    ensures Less(Fixed(m, w), Fixed(n, w))
  {
    if m / 10 < n / 10 {
      FixedOrder(m / 10, n / 10, w - 1);
      LessSuffix(Fixed(m / 10, w - 1), Fixed(n / 10, w - 1), [Digit(m % 10)], [Digit(n % 10)]);
    } else {
      assert m / 10 == n / 10;
      LessPrefix(Fixed(m / 10, w - 1), [Digit(m % 10)], [Digit(n % 10)]);
    }
  }

  predicate AllDigits(s: string) {
    forall i :: 0 <= i < |s| ==> '0' <= s[i] <= '9'
  }

  /** Reading back: the value of a string of digits. */
  function Value(s: string): nat
    requires AllDigits(s)
  {
    if s == [] then 0 else 10 * Value(s[..|s| - 1]) + (s[|s| - 1] - '0') as nat
  }

  lemma {:induction false} DigitsRoundTrip(n: nat)
    ensures AllDigits(Digits(n)) && Value(Digits(n)) == n
  {
    if n >= 10 {
      DigitsRoundTrip(n / 10);
      assert Digits(n)[..|Digits(n)| - 1] == Digits(n / 10);
    } else {
      assert Digits(n)[..0] == [];
    }
  }

  lemma {:induction false} ZerosInFront(k: nat, s: string)
    requires AllDigits(s)
    ensures AllDigits(Repeat('0', k) + s) && Value(Repeat('0', k) + s) == Value(s)
  {
    if s != [] {
      ZerosInFront(k, s[..|s| - 1]);
      assert (Repeat('0', k) + s)[..k + |s| - 1] == Repeat('0', k) + s[..|s| - 1];
    } else if k > 0 {
      ZerosInFront(k - 1, []);
      assert Repeat('0', k) + [] == Repeat('0', k) && Repeat('0', k - 1) + [] == Repeat('0', k - 1);
      assert Repeat('0', k)[..k - 1] == Repeat('0', k - 1);
    }
  }

  /** Padding keeps the number. */
  lemma {:induction false} PaddedValue(n: nat, w: nat)
    ensures AllDigits(Padded(n, w)) && Value(Padded(n, w)) == n
  {
    DigitsRoundTrip(n);
    ZerosInFront(if |Digits(n)| < w then w - |Digits(n)| else 0, Digits(n));
  }
}
