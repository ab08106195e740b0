/** Patterns over parameter paths (`glob_match_here`): what `*` means. */
module Glob {

  function SkipStars(pat: string): (r: string)
    ensures |r| <= |pat| && (r != [] ==> r[0] != '*')
  {
    if pat != [] && pat[0] == '*' then SkipStars(pat[1..]) else pat
  }

  /** The recursion of the code: a star tries every rest of the text in turn. */
  predicate Matches(pat: string, text: string)
    decreases |pat|
  {
    if pat == [] then text == []
    else if pat[0] == '*' then
      var rest := SkipStars(pat[1..]);
      rest == [] || exists k :: 0 <= k <= |text| && Matches(rest, text[k..])
    else text != [] && pat[0] == text[0] && Matches(pat[1..], text[1..])
  }

  /** `glob_match_here`. */
  method GlobMatchHere(pat: string, text: string) returns (r: bool)
    ensures r <==> Matches(pat, text)
    decreases |pat|
  {
    if pat == [] {
      return text == [];
    }
    if pat[0] == '*' {
      var rest := pat;
      while rest != [] && rest[0] == '*'
        invariant |rest| <= |pat| && (rest == pat || (|rest| < |pat| && SkipStars(rest) == SkipStars(pat[1..])))
        decreases |rest|
      {
        rest := rest[1..];
      }
      if rest == [] {
        return true;
      }
      var i := 0;
      while i < |text|
        invariant i <= |text| && forall k :: 0 <= k < i ==> !Matches(rest, text[k..])
      {
        var here := GlobMatchHere(rest, text[i..]);
        if here {
          return true;
        }
        i := i + 1;
      }
      r := GlobMatchHere(rest, text[i..]);
      return;
    }
    if text != [] && pat[0] == text[0] {
      r := GlobMatchHere(pat[1..], text[1..]);
      return;
    }
    r := false;
  }

  // ---------- what a pattern means ----------

  function Stars(pat: string): nat {
    if pat == [] then 0 else (if pat[0] == '*' then 1 else 0) + Stars(pat[1..])
  }

  /** The pattern with every star replaced by a text of its own. */
  function Filled(pat: string, fills: seq<string>): string
    requires |fills| == Stars(pat)
  {
    if pat == [] then []
    else if pat[0] == '*' then fills[0] + Filled(pat[1..], fills[1..])
    else [pat[0]] + Filled(pat[1..], fills)
  }

  ghost predicate Fills(pat: string, fills: seq<string>, text: string) {
    |fills| == Stars(pat) && Filled(pat, fills) == text
  }

  /** Some texts in place of the stars give the text. */
  ghost predicate Means(pat: string, text: string) {
    exists fills :: Fills(pat, fills, text)
  }

  /** A leading star takes any front of the text. */
  lemma {:induction false} StarTakes(pat: string, text: string)
    requires pat != [] && pat[0] == '*'
    ensures Means(pat, text) <==> exists k :: 0 <= k <= |text| && Means(pat[1..], text[k..])
  {
    if fills :| Fills(pat, fills, text) {
      var k := |fills[0]|;
      assert text[k..] == Filled(pat[1..], fills[1..]);
      assert Fills(pat[1..], fills[1..], text[k..]);
    }
    if k :| 0 <= k <= |text| && Means(pat[1..], text[k..]) {
      var rest :| Fills(pat[1..], rest, text[k..]);
      assert ([text[..k]] + rest)[1..] == rest;
      assert text == text[..k] + text[k..];
      assert Fills(pat, [text[..k]] + rest, text);
    }
  }

  lemma {:induction false} LetterTakes(pat: string, text: string)
    requires pat != [] && pat[0] != '*'
    ensures Means(pat, text) <==> text != [] && text[0] == pat[0] && Means(pat[1..], text[1..])
  {
    if fills :| Fills(pat, fills, text) {
      assert text[1..] == Filled(pat[1..], fills);
      assert Fills(pat[1..], fills, text[1..]);
    }
    if text != [] && text[0] == pat[0] && Means(pat[1..], text[1..]) {
      var fills :| Fills(pat[1..], fills, text[1..]);
      assert text == [text[0]] + text[1..];
      assert Fills(pat, fills, text);
    }
  }

  lemma {:induction false} EmptyMeans(text: string)
    ensures Means([], text) <==> text == []
  {
    if text == [] {
      assert Fills([], [], []);
    }
  }

  /** Further stars behind a star add nothing. */
  lemma {:induction false} StarsMerge(pat: string, text: string)
    ensures (exists k :: 0 <= k <= |text| && Means(pat, text[k..]))
            <==> exists k :: 0 <= k <= |text| && Means(SkipStars(pat), text[k..])
  {
    if pat != [] && pat[0] == '*' {
      StarsMerge(pat[1..], text);
      if k :| 0 <= k <= |text| && Means(pat, text[k..]) {
        StarTakes(pat, text[k..]);
        var j :| 0 <= j <= |text[k..]| && Means(pat[1..], text[k..][j..]);
        assert text[k..][j..] == text[k + j..];
      }
      if k :| 0 <= k <= |text| && Means(pat[1..], text[k..]) {
        StarTakes(pat, text[k..]);
        assert text[k..][0..] == text[k..];
      }
    }
  }

  /** The matcher agrees with the meaning of the pattern, for every pattern and text. */
  lemma {:induction false} GlobExact(pat: string, text: string)
    ensures Matches(pat, text) <==> Means(pat, text)
    decreases |pat|
  {
    if pat == [] {
      EmptyMeans(text);
    } else if pat[0] == '*' {
      var rest := SkipStars(pat[1..]);
      StarTakes(pat, text);
      StarsMerge(pat[1..], text);
      forall k | 0 <= k <= |text|
        ensures Matches(rest, text[k..]) <==> Means(rest, text[k..])
      {
        GlobExact(rest, text[k..]);
      }
      if rest == [] {
        assert text[|text|..] == [];
        EmptyMeans(text[|text|..]);
      }
    } else {
      LetterTakes(pat, text);
      if text != [] {
        GlobExact(pat[1..], text[1..]);
      }
    }
  }
}
