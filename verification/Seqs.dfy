/** Sequences built up one element at a time, the way the loops of the repository build them. */
module Seqs {
  datatype Option<+T> = None | Some(value: T)

  /** Concatenation of a list of sequences, in order. */
  function Flatten<T>(ss: seq<seq<T>>): seq<T> {
    if ss == [] then [] else Flatten(ss[..|ss| - 1]) + ss[|ss| - 1]
  }

  lemma {:induction false} FlattenAppend<T>(a: seq<seq<T>>, b: seq<seq<T>>)
    ensures Flatten(a + b) == Flatten(a) + Flatten(b)
  {
    if b == [] {
      assert a + b == a;
    } else {
      var init, last := b[..|b| - 1], b[|b| - 1];
      FlattenAppend(a, init);
      FlattenSnoc(a + init, last);
      FlattenSnoc(init, last);
      assert a + b == a + init + [last] && b == init + [last];
    }
  }

  lemma {:induction false} FlattenSnoc<T>(a: seq<seq<T>>, x: seq<T>)
    ensures Flatten(a + [x]) == Flatten(a) + x
  {
    assert (a + [x])[..|a|] == a;
  }

  /** Element `i` of the list sits in the concatenation right after the elements before it. */
  lemma {:induction false} FlattenAt<T>(ss: seq<seq<T>>, i: nat)
    requires i < |ss|
    ensures |Flatten(ss[..i])| + |ss[i]| == |Flatten(ss[..i + 1])| <= |Flatten(ss)|
    ensures Flatten(ss)[|Flatten(ss[..i])|..|Flatten(ss[..i + 1])|] == ss[i]
    ensures Flatten(ss)[..|Flatten(ss[..i])|] == Flatten(ss[..i])
  {
    assert ss == ss[..i + 1] + ss[i + 1..];
    FlattenAppend(ss[..i + 1], ss[i + 1..]);
    assert ss[..i + 1] == ss[..i] + [ss[i]];
    FlattenSnoc(ss[..i], ss[i]);
  }

  /** Concatenation is associative, where the verifier has to be told. */
  lemma {:induction false} Assoc<T>(a: seq<T>, b: seq<T>, c: seq<T>)
    ensures a + b + c == a + (b + c)
  {
  }

  lemma {:induction false} LastSplit<T>(s: seq<T>)
    requires s != []
    ensures s == s[..|s| - 1] + [s[|s| - 1]]
  {
  }

  lemma {:induction false} InConcat<T>(x: T, a: seq<T>, b: seq<T>)
    ensures x in a + b <==> x in a || x in b
  {
  }

  lemma {:induction false} SliceFront<T>(s: seq<T>, a: nat, b: nat, n: nat)
    requires a + n <= b <= |s|
    ensures s[a..b][..n] == s[a..a + n]
    ensures s[a..b][n..] == s[a + n..b]
  {
  }

  function Repeat<T>(x: T, n: nat): (r: seq<T>)
    ensures |r| == n
    ensures forall i :: 0 <= i < n ==> r[i] == x
  {
    if n == 0 then [] else Repeat(x, n - 1) + [x]
  }

  function Sum(s: seq<int>): int {
    if s == [] then 0 else Sum(s[..|s| - 1]) + s[|s| - 1]
  }

  lemma {:induction false} SumSnoc(s: seq<int>, x: int)
    ensures Sum(s + [x]) == Sum(s) + x
  {
    assert (s + [x])[..|s|] == s;
  }

  function Min(a: int, b: int): int { if a < b then a else b }

  function Max(a: int, b: int): int { if a < b then b else a }

  /** All values of a list of results, when none of them failed. */
  function Collect<T>(results: seq<Option<T>>): (r: Option<seq<T>>)
    ensures r.Some? ==> |r.value| == |results|
  {
    if forall i :: 0 <= i < |results| ==> results[i].Some?
    then Some(seq(|results|, i requires 0 <= i < |results| && results[i].Some? => results[i].value))
    else None
  }

  lemma {:induction false} CollectIs<T>(results: seq<Option<T>>, values: seq<T>)
    requires |results| == |values| && forall i :: 0 <= i < |results| ==> results[i] == Some(values[i])
    ensures Collect(results) == Some(values)
  {
    assert Collect(results).Some? && Collect(results).value == values;
  }

  /** The values in front of the first failure. */
  function Leading<T>(results: seq<Option<T>>): (r: seq<T>)
    ensures |r| <= |results|
    ensures forall k :: 0 <= k < |r| ==> results[k] == Some(r[k])
    ensures |r| < |results| ==> results[|r|].None?
  {
    if results == [] || results[0].None? then [] else [results[0].value] + Leading(results[1..])
  }

  /** The first `limit` elements. */
  function Limited<T>(s: seq<T>, limit: Option<nat>): seq<T> {
    if limit.Some? && limit.value < |s| then s[..limit.value] else s
  }
}
