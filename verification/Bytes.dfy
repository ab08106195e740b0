/** Little-endian integers as byte sequences: the `struct` codes `H`, `I`, `Q` and `q`. */
module Bytes {
  import opened Arith

  type Byte = b: int | 0 <= b < 256 witness 0

  function Pow256(width: nat): (r: nat)
    ensures r > 0
  {
    if width == 0 then 1 else 256 * Pow256(width - 1)
  }

  /** The low `width` bytes of `n`, least significant first. */
  function LE(n: nat, width: nat): (s: seq<Byte>)
    ensures |s| == width
  {
    if width == 0 then [] else [n % 256] + LE(n / 256, width - 1)
  }

  function FromLE(s: seq<Byte>): nat {
    if s == [] then 0 else s[0] + 256 * FromLE(s[1..])
  }

  lemma {:induction false} LERoundTrip(n: nat, width: nat)
    requires n < Pow256(width)
    ensures FromLE(LE(n, width)) == n
  {
    if width > 0 {
      LERoundTrip(n / 256, width - 1);
      assert LE(n, width)[1..] == LE(n / 256, width - 1);
    }
  }

  /** The other direction: re-encoding what was decoded gives the bytes back. */
  lemma {:induction false} FromLERoundTrip(s: seq<Byte>)
    ensures FromLE(s) < Pow256(|s|)
    ensures LE(FromLE(s), |s|) == s
  {
    if s != [] {
      FromLERoundTrip(s[1..]);
      assert FromLE(s) / 256 == FromLE(s[1..]) && FromLE(s) % 256 == s[0];
      assert s == [s[0]] + s[1..];
    }
  }

  lemma {:induction false} Widths()
    ensures Pow256(1) == 0x100 && Pow256(2) == 0x1_0000 && Pow256(4) == 0x1_0000_0000
    ensures Pow256(8) == WORD
  {
    assert Pow256(2) == 0x1_0000;
    assert Pow256(3) == 0x100_0000;
    assert Pow256(4) == 0x1_0000_0000;
    assert Pow256(6) == 256 * Pow256(5) && Pow256(5) == 256 * Pow256(4);
    assert Pow256(8) == 256 * Pow256(7) && Pow256(7) == 256 * Pow256(6);
  }

  /** Least significant byte first. */
  lemma {:induction false} LEFour(n: nat)
    ensures LE(n, 4) == [n % 256, n / 0x100 % 256, n / 0x1_0000 % 256, n / 0x100_0000 % 256]
  {
    var a, b, c := n / 256, n / 256 / 256, n / 256 / 256 / 256;
    assert b == n / 0x1_0000 && c == n / 0x100_0000;
    assert LE(c, 1) == [c % 256] + LE(c / 256, 0);
    assert LE(b, 2) == [b % 256] + LE(c, 1);
    assert LE(a, 3) == [a % 256] + LE(b, 2);
  }

  // ---------- signed 64-bit ----------

  type I64 = v: int | -0x8000_0000_0000_0000 <= v < 0x8000_0000_0000_0000 witness 0

  function LESigned(v: I64): (s: seq<Byte>)
    ensures |s| == 8
  {
    LE(if v < 0 then v + WORD else v, 8)
  }

  function FromLESigned(s: seq<Byte>): (v: I64)
    requires |s| == 8
  {
    FromLERoundTrip(s);
    Widths();
    var u := FromLE(s);
    if u >= 0x8000_0000_0000_0000 then u - WORD else u
  }

  lemma {:induction false} SignedRoundTrip(v: I64)
    ensures FromLESigned(LESigned(v)) == v
  {
    Widths();
    LERoundTrip(if v < 0 then v + WORD else v, 8);
  }

  // ---------- layouts ----------

  type Data = seq<Byte>

  /** The bytes `p` stand at offset `off` of `s`. */
  ghost predicate At(s: Data, off: nat, p: Data) {
    off + |p| <= |s| && forall i :: 0 <= i < |p| ==> s[off + i] == p[i]
  }

  lemma {:induction false} AtSlice(s: Data, off: nat, p: Data)
    ensures At(s, off, p) <==> off + |p| <= |s| && s[off..off + |p|] == p
  {
    if off + |p| <= |s| && s[off..off + |p|] == p {
      forall i | 0 <= i < |p|
        ensures s[off + i] == p[i]
      {
        assert s[off..off + |p|][i] == s[off + i];
      }
    }
  }

  lemma {:induction false} AtAppend(a: Data, b: Data)
    ensures At(a + b, 0, a) && At(a + b, |a|, b)
  {
  }

  /** Bytes keep their place when something is appended. */
  lemma {:induction false} AtExtend(s: Data, t: Data, off: nat, p: Data)
    requires At(s, off, p)
    ensures At(s + t, off, p)
  {
  }

  lemma {:induction false} AtNested(s: Data, off: nat, p: Data, inner: nat, q: Data)
    requires At(s, off, p) && At(p, inner, q)
    ensures At(s, off + inner, q)
  {
    forall i | 0 <= i < |q|
      ensures s[off + inner + i] == q[i]
    {
      assert p[inner + i] == q[i];
    }
  }

  lemma {:induction false} ThreeParts(a: Data, b: Data, c: Data)
    ensures At(a + b + c, 0, a) && At(a + b + c, |a|, b) && At(a + b + c, |a| + |b|, c)
  {
    AtAppend(a, b);
    AtAppend(a + b, c);
    AtExtend(a + b, c, 0, a);
    AtExtend(a + b, c, |a|, b);
  }

  /** `struct.pack_into` and slice assignment: overwrite in place. */
  function PackInto(buf: Data, off: nat, p: Data): (r: Data)
    requires off + |p| <= |buf|
    ensures |r| == |buf|
  {
    buf[..off] + p + buf[off + |p|..]
  }

  /** What was written is there, and disjoint bytes keep their value. */
  lemma {:induction false} PackIntoLayout(buf: Data, off: nat, p: Data)
    requires off + |p| <= |buf|
    ensures At(PackInto(buf, off, p), off, p)
    ensures forall o: nat, q: Data ::
        At(buf, o, q) && (o + |q| <= off || off + |p| <= o)
        ==> At(PackInto(buf, off, p), o, q)
  {
  }

  /** An array of numbers of fixed width, one behind the other. */
  function Pack(values: seq<nat>, width: nat): Data {
    if values == [] then [] else Pack(values[..|values| - 1], width) + LE(values[|values| - 1], width)
  }

  lemma {:induction false} PackLength(values: seq<nat>, width: nat)
    ensures |Pack(values, width)| == |values| * width
  {
    if values != [] {
      PackLength(values[..|values| - 1], width);
      assert |values| * width == (|values| - 1) * width + width;
    }
  }

  /** Number `i` stands at its place. */
  lemma {:induction false} PackAt(values: seq<nat>, width: nat, i: nat)
    requires i < |values|
    ensures At(Pack(values, width), i * width, LE(values[i], width))
  {
    var n := |values| - 1;
    PackLength(values[..n], width);
    if i < n {
      PackAt(values[..n], width, i);
      AtExtend(Pack(values[..n], width), LE(values[n], width), i * width, LE(values[i], width));
    } else {
      AtAppend(Pack(values[..n], width), LE(values[n], width));
    }
  }

  /** The unsigned number stored in `width` bytes at `off`. */
  function U(s: Data, off: nat, width: nat): nat
    requires off + width <= |s|
  {
    FromLE(s[off..off + width])
  }

  lemma {:induction false} ReadBack(s: Data, off: nat, n: nat, width: nat)
    requires At(s, off, LE(n, width)) && n < Pow256(width)
    ensures off + width <= |s| && U(s, off, width) == n
  {
    AtSlice(s, off, LE(n, width));
    LERoundTrip(n, width);
  }

  function I(s: Data, off: nat): I64
    requires off + 8 <= |s|
  {
    FromLESigned(s[off..off + 8])
  }

  lemma {:induction false} ReadBackSigned(s: Data, off: nat, v: I64)
    requires At(s, off, LESigned(v))
    ensures off + 8 <= |s| && I(s, off) == v
  {
    AtSlice(s, off, LESigned(v));
    SignedRoundTrip(v);
  }

  function Zeros(n: nat): (r: Data)
    ensures |r| == n && forall i :: 0 <= i < n ==> r[i] == 0
  {
    seq(n, i => 0)
  }
}
