/** What an operation may be called, said by words; which directories are operations; and which id a text states
    for a name. */
module RegistryNames {
  import opened Seqs
  import opened Ctype
  import opened Decimal
  import opened RegistryText
  import opened Registry

  ghost predicate Word(w: string) {
    w != [] && forall i :: 0 <= i < |w| ==> IsLower(w[i]) || IsDigit(w[i])
  }

  ghost predicate Words(ws: seq<string>) {
    ws != [] && forall i :: 0 <= i < |ws| ==> Word(ws[i])
  }

  function Joined(ws: seq<string>): string
    requires ws != []
  {
    if |ws| == 1 then ws[0] else ws[0] + (['_'] + Joined(ws[1..]))
  }

  /** Words with single underscores between them, character by character. */
  ghost predicate Wordy(s: string) {
    && s != [] && s[0] != '_'
    && forall i :: 0 <= i < |s| ==> NameChar(s[i]) && InnerUnderscore(s, i)
  }

  ghost predicate InnerUnderscore(s: string, i: int)
    requires 0 <= i < |s|
  {
    s[i] == '_' ==> i + 1 < |s| && s[i + 1] != '_'
  }

  lemma {:induction false} WordIsWordy(w: string)
    requires Word(w)
    ensures Wordy(w)
  {
    assert forall i :: 0 <= i < |w| ==> IsLower(w[i]) || IsDigit(w[i]);
  }

  lemma {:induction false} WordThenWordy(w: string, t: string)
    requires Word(w) && Wordy(t)
    ensures Wordy(w + (['_'] + t))
  {
    var s := w + (['_'] + t);
    forall i | 0 <= i < |s|
      ensures NameChar(s[i]) && InnerUnderscore(s, i)
    {
      if i > |w| {
        assert s[i] == t[i - |w| - 1] && InnerUnderscore(t, i - |w| - 1);
      }
    }
  }

  lemma {:induction false} JoinedIsWordy(ws: seq<string>)
    requires Words(ws)
    ensures Wordy(Joined(ws)) && Joined(ws)[0] == ws[0][0]
  {
    assert Word(ws[0]);
    if |ws| == 1 {
      WordIsWordy(ws[0]);
    } else {
      JoinedIsWordy(ws[1..]);
      WordThenWordy(ws[0], Joined(ws[1..]));
    }
  }

  /** The length of the word at the front. */
  function FirstWord(s: string): (n: nat)
    ensures n <= |s| && (forall i :: 0 <= i < n ==> s[i] != '_') && (n < |s| ==> s[n] == '_')
  {
    if s == [] || s[0] == '_' then 0 else 1 + FirstWord(s[1..])
  }

  lemma {:induction false} SplitWords(s: string) returns (ws: seq<string>)
    requires Wordy(s)
    ensures Words(ws) && Joined(ws) == s
    decreases |s|
  {
    var n := FirstWord(s);
    var w := s[..n];
    assert forall i :: 0 <= i < n ==> NameChar(s[i]);
    assert Word(w);
    if n == |s| {
      ws := [w];
    } else {
      assert InnerUnderscore(s, n);
      var t := s[n + 1..];
      TailIsWordy(s, n + 1);
      var rest := SplitWords(t);
      ws := [w] + rest;
      assert ws[1..] == rest && s == w + (['_'] + t);
    }
  }

  lemma {:induction false} TailIsWordy(s: string, k: nat)
    requires Wordy(s) && k < |s| && s[k] != '_'
    ensures Wordy(s[k..])
  {
    var t := s[k..];
    forall i | 0 <= i < |t|
      ensures NameChar(t[i]) && InnerUnderscore(t, i)
    {
      assert t[i] == s[k + i] && InnerUnderscore(s, k + i);
    }
  }

  ghost predicate MadeOf(s: string, ws: seq<string>) {
    Words(ws) && IsLower(ws[0][0]) && Joined(ws) == s
  }

  /** A name is valid exactly when it is made of words of lower-case letters and digits with single underscores
      between them, begins with a letter, and has fewer than 96 characters. */
  lemma {:induction false} ValidNameExact(s: string)
    ensures ValidName(s) <==> |s| < 96 && exists ws :: MadeOf(s, ws)
  {
    if ValidName(s) {
      assert forall i :: 0 <= i < |s| && s[i] == '_' ==> i + 1 < |s| && !Underscore(s, i + 1);
      var ws := SplitWords(s);
      JoinedIsWordy(ws);
      assert MadeOf(s, ws);
    }
    if exists ws :: MadeOf(s, ws) {
      var ws :| MadeOf(s, ws);
      JoinedIsWordy(ws);
      assert forall i :: 0 <= i < |s| ==> InnerUnderscore(s, i);
    }
  }

  /** An operation is a directory with a valid name that holds a core or an autograd source; the scan finds the
      names of exactly these entries. */
  lemma {:induction false} OpsAreDirectories(entries: seq<DirEntry>, name: string)
    ensures name in OpsIn(entries) <==>
            exists i :: 0 <= i < |entries| && IsOperation(entries[i], name)
  {
    if entries != [] {
      var n := |entries| - 1;
      OpsAreDirectories(entries[..n], name);
      ValidNameExact(entries[n].name);
      assert IsOperation(entries[n], name) <==> entries[n].IsOp() && entries[n].name == name;
      if exists i :: 0 <= i < |entries| && IsOperation(entries[i], name) {
        var i :| 0 <= i < |entries| && IsOperation(entries[i], name);
        assert i < n ==> IsOperation(entries[..n][i], name);
      }
    }
  }

  /** The scan keeps the order of the directory. */
  lemma {:induction false} OpsInOrder(a: seq<DirEntry>, b: seq<DirEntry>)
    ensures OpsIn(a + b) == OpsIn(a) + OpsIn(b)
    decreases |b|
  {
    if b == [] {
      assert a + b == a;
    } else {
      var n := |b| - 1;
      OpsInOrder(a, b[..n]);
      assert (a + b)[..|a + b| - 1] == a + b[..n];
    }
  }

  ghost predicate IsOperation(e: DirEntry, name: string) {
    && e.name == name && e.isDir && (e.hasCore || e.hasAutograd)
    && |name| < 96 && exists ws :: MadeOf(name, ws)
  }

  // ---------- ids ----------

  /** The id of a name is that of the last entry that sets one, and stays what it was where none does. */
  lemma {:induction false} LastIdExact(entries: seq<Entry>, name: string, before: nat, i: nat)
    ensures (forall j :: 0 <= j < |entries| ==> !Sets(entries[j], name)) ==> LastId(entries, name, before) == before
    ensures i < |entries| && Sets(entries[i], name) && (forall j :: i < j < |entries| ==> !Sets(entries[j], name)) ==>
              LastId(entries, name, before) == entries[i].id
  {
    if entries != [] {
      var n := |entries| - 1;
      LastIdExact(entries[..n], name, before, i);
      assert forall j :: 0 <= j < n ==> entries[..n][j] == entries[j];
    }
  }

  /** The id behind a name: the digits behind the next `=`, when they fit 32 bits, and 0 otherwise. */
  lemma {:induction false} IdExact(front: string, space: string, digits: string, rest: string)
    requires '=' !in front && AllSpace(space)
    requires digits != [] && AllDigits(digits) && (rest == [] || !IsDigit(rest[0]))
    ensures IdAfter(front + (['='] + (space + (digits + rest))))
            == if Value(digits) <= UINT32_MAX then Value(digits) else 0
  {
    AfterIs(front, space + (digits + rest));
    StrtoulExact(space, "", digits, rest);
    assert "" + (digits + rest) == digits + rest;
  }

  lemma {:induction false} AfterIs(front: string, t: string)
    requires '=' !in front
    ensures After(front + (['='] + t), '=') == Some(t)
  {
    if front == [] {
      assert front + (['='] + t) == ['='] + t;
    } else {
      assert front[0] in front;
      assert (front + (['='] + t))[1..] == front[1..] + (['='] + t);
      AfterIs(front[1..], t);
    }
  }

  /** No `=` behind a name: no id. */
  lemma {:induction false} NoIdWithout(s: string)
    requires '=' !in s
    ensures IdAfter(s) == 0
  {
    if s != [] {
      assert s[0] in s;
      NoIdWithout(s[1..]);
    }
  }
}
