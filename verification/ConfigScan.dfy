/** The quote-aware scanners of the configuration reader (`examples/common/gd_example_config.c`): where a
    comment starts and where the key ends. */
module ConfigScan {
  import opened Seqs

  /** Where a scanner is: outside quotes, inside one kind, or behind a backslash. */
  datatype Quote = Outside | InSingle | InDouble | Escaped

  function Step(q: Quote, ch: char): Quote {
    match q
    case Escaped => InDouble
    case InDouble => if ch == '\\' then Escaped else if ch == '"' then Outside else InDouble
    case InSingle => if ch == '\'' then Outside else InSingle
    case Outside => if ch == '\'' then InSingle else if ch == '"' then InDouble else Outside
  }

  function StateAfter(s: string, q: Quote): Quote {
    if s == [] then q else StateAfter(s[1..], Step(q, s[0]))
  }

  /** The first `c` outside quotes. */
  function FindStop(s: string, q: Quote, c: char): (r: Option<nat>)
    ensures r.Some? ==> r.value < |s| && s[r.value] == c
  {
    if s == [] then None
    else if q == Outside && s[0] == c then Some(0)
    else
      match FindStop(s[1..], Step(q, s[0]), c)
      case None => None
      case Some(i) => Some(i + 1)
  }

  /** The flags of the C loops. */
  ghost predicate Flags(q: Quote, inSingle: bool, inDouble: bool, escaped: bool) {
    && inSingle == (q == InSingle)
    && inDouble == (q == InDouble || q == Escaped)
    && escaped == (q == Escaped)
  }

  /** What the loop has found so far. */
  ghost predicate NotYet(line: string, i: nat, q: Quote, c: char) {
    i <= |line| && match FindStop(line[i..], q, c)
                   case None => FindStop(line, Outside, c) == None
                   case Some(j) => FindStop(line, Outside, c) == Some(i + j)
  }

  lemma {:induction false} NotYetStep(line: string, i: nat, q: Quote, c: char)
    requires i < |line| && NotYet(line, i, q, c) && !(q == Outside && line[i] == c)
    ensures NotYet(line, i + 1, Step(q, line[i]), c)
  {
    assert line[i..][1..] == line[i + 1..];
  }

  /** The loop that `strip_comment` and `find_colon` share; `|line|` when there is no stop. */
  method Scan(line: string, c: char) returns (k: nat)
    requires c != '\'' && c != '"'
    ensures k == if FindStop(line, Outside, c).Some? then FindStop(line, Outside, c).value else |line|
  {
    var inSingle, inDouble, escaped := false, false, false;
    ghost var q := Outside;
    k := 0;
    assert line[0..] == line;
    while k < |line|
      invariant k <= |line| && Flags(q, inSingle, inDouble, escaped) && NotYet(line, k, q, c)
      decreases |line| - k
    {
      var ch := line[k];
      if !escaped && !inSingle && !inDouble && ch == c {
        return;
      }
      NotYetStep(line, k, q, c);
      q := Step(q, ch);
      k := k + 1;
      if escaped {
        escaped := false;
        continue;
      }
      if inDouble && ch == '\\' {
        escaped := true;
        continue;
      }
      if !inDouble && ch == '\'' {
        inSingle := !inSingle;
        continue;
      }
      if !inSingle && ch == '"' {
        inDouble := !inDouble;
        continue;
      }
    }
  }

  // ---------- what stays uncut ----------

  /** Read from outside quotes to outside quotes without meeting `c` there. */
  ghost predicate Passes(s: string, c: char) {
    FindStop(s, Outside, c) == None && StateAfter(s, Outside) == Outside
  }

  lemma {:induction false} StopAppend(a: string, b: string, q: Quote, c: char)
    requires FindStop(a, q, c) == None
    ensures FindStop(a + b, q, c) == match FindStop(b, StateAfter(a, q), c)
                                     case None => None
                                     case Some(i) => Some(|a| + i)
    ensures StateAfter(a + b, q) == StateAfter(b, StateAfter(a, q))
  {
    if a == [] {
      assert a + b == b;
    } else {
      assert (a + b)[1..] == a[1..] + b;
      StopAppend(a[1..], b, Step(q, a[0]), c);
    }
  }

  lemma {:induction false} PassesAppend(a: string, b: string, c: char)
    requires Passes(a, c) && Passes(b, c)
    ensures Passes(a + b, c)
  {
    StopAppend(a, b, Outside, c);
  }

  /** The stop after a text that passes is found where it is. */
  lemma {:induction false} StopsAfter(a: string, c: char, rest: string)
    requires Passes(a, c) && c != '\'' && c != '"'
    ensures FindStop(a + [c] + rest, Outside, c) == Some(|a|)
  {
    assert a + [c] + rest == a + ([c] + rest);
    StopAppend(a, [c] + rest, Outside, c);
  }

  ghost predicate Neutral(s: string, c: char) {
    forall i :: 0 <= i < |s| ==> s[i] != c && s[i] != '\'' && s[i] != '"'
  }

  lemma {:induction false} NeutralPasses(s: string, c: char)
    requires Neutral(s, c)
    ensures Passes(s, c)
  {
    if s != [] {
      NeutralPasses(s[1..], c);
    }
  }
}
