/** The character classes of C in its default locale. */
module Ctype {
  predicate IsLower(c: char) { 'a' <= c <= 'z' }

  predicate IsUpper(c: char) { 'A' <= c <= 'Z' }

  predicate IsDigit(c: char) { '0' <= c <= '9' }

  predicate IsAlnum(c: char) { IsLower(c) || IsUpper(c) || IsDigit(c) }

  predicate IsSpace(c: char) { c == ' ' || '\t' <= c <= '\r' }

  predicate AllSpace(s: string) {
    forall i :: 0 <= i < |s| ==> IsSpace(s[i])
  }

  /** Without the white space at the front. */
  function LTrim(s: string): string {
    if s != [] && IsSpace(s[0]) then LTrim(s[1..]) else s
  }

  /** Without the white space at the end. */
  function RTrim(s: string): string {
    if s != [] && IsSpace(s[|s| - 1]) then RTrim(s[..|s| - 1]) else s
  }

  function Trim(s: string): string { RTrim(LTrim(s)) }

  lemma {:induction false} LTrimIs(ws: string, s: string)
    requires AllSpace(ws) && (s != [] ==> !IsSpace(s[0]))
    ensures LTrim(ws + s) == s
  {
    if ws == [] {
      assert ws + s == s;
    } else {
      assert (ws + s)[1..] == ws[1..] + s;
      LTrimIs(ws[1..], s);
    }
  }

  lemma {:induction false} RTrimIs(s: string, ws: string)
    requires AllSpace(ws) && (s != [] ==> !IsSpace(s[|s| - 1]))
    ensures RTrim(s + ws) == s
  {
    if ws == [] {
      assert s + ws == s;
    } else {
      assert (s + ws)[..|s + ws| - 1] == s + ws[..|ws| - 1];
      RTrimIs(s, ws[..|ws| - 1]);
    }
  }

  /** Trimming takes the white space around a text that has none at its own ends, and no more. */
  lemma {:induction false} TrimIs(front: string, s: string, back: string)
    requires AllSpace(front) && AllSpace(back)
    requires s != [] ==> !IsSpace(s[0]) && !IsSpace(s[|s| - 1])
    ensures Trim(front + s + back) == s
  {
    if s == [] {
      assert front + s + back == (front + back) + [];
      LTrimIs(front + back, []);
    } else {
      assert front + s + back == front + (s + back);
      LTrimIs(front, s + back);
    }
    RTrimIs(s, back);
    assert s == [] ==> RTrim([]) == [];
  }
}
