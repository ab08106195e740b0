/** Every line that is accepted has one of the written forms: the converse of `LineReads`. */
module ConfigLines {
  import opened Seqs
  import opened Ctype
  import opened ConfigScan
  import opened ConfigScalar
  import opened Config
  import opened ConfigRoundTrip

  /** The characters of keys and the white space around things, by their ASCII codes. */
  lemma {:induction false} CharactersExact(c: char)
    ensures var n := c as int;
            KeyChar(c) <==> 48 <= n <= 57 || 65 <= n <= 90 || 97 <= n <= 122 || n == 45 || n == 46 || n == 95
    ensures var n := c as int; IsSpace(c) <==> 9 <= n <= 13 || n == 32
  {
  }

  // ---------- trimming ----------

  lemma {:induction false} LTrimParts(s: string) returns (front: string)
    ensures AllSpace(front) && s == front + LTrim(s) && (LTrim(s) != [] ==> !IsSpace(LTrim(s)[0]))
  {
    if s != [] && IsSpace(s[0]) {
      var rest := LTrimParts(s[1..]);
      front := [s[0]] + rest;
      assert s == [s[0]] + s[1..];
    } else {
      front := [];
    }
  }

  lemma {:induction false} RTrimParts(s: string) returns (back: string)
    ensures AllSpace(back) && s == RTrim(s) + back && (RTrim(s) != [] ==> !IsSpace(RTrim(s)[|RTrim(s)| - 1]))
    decreases |s|
  {
    if s != [] && IsSpace(s[|s| - 1]) {
      var rest := RTrimParts(s[..|s| - 1]);
      back := rest + [s[|s| - 1]];
      LastSplit(s);
    } else {
      back := [];
    }
  }

  ghost predicate SolidEnds(t: string) {
    t != [] ==> !IsSpace(t[0]) && !IsSpace(t[|t| - 1])
  }

  lemma {:induction false} TrimParts(s: string) returns (front: string, back: string)
    ensures AllSpace(front) && AllSpace(back) && s == front + Trim(s) + back && SolidEnds(Trim(s))
  {
    front := LTrimParts(s);
    back := RTrimParts(LTrim(s));
    assert s == front + (Trim(s) + back);
    if Trim(s) != [] {
      assert LTrim(s)[0] == Trim(s)[0];
    }
  }

  /** White space at an end that is solid is none. */
  lemma {:induction false} NothingBehind(a: string, back: string)
    requires AllSpace(back) && a + back != [] && !IsSpace((a + back)[|a + back| - 1])
    ensures back == []
  {
  }

  lemma {:induction false} NothingBefore(front: string, b: string)
    requires AllSpace(front) && front + b != [] && !IsSpace((front + b)[0])
    ensures front == []
  {
  }

  // ---------- comments ----------

  /** What stands before the first stop holds none and leaves the scanner outside quotes. */
  lemma {:induction false} BeforeStop(s: string, q: Quote, c: char)
    requires FindStop(s, q, c).Some? && c != '\'' && c != '"'
    ensures var k := FindStop(s, q, c).value; FindStop(s[..k], q, c) == None && StateAfter(s[..k], q) == Outside
    decreases |s|
  {
    var k := FindStop(s, q, c).value;
    if !(q == Outside && s[0] == c) {
      BeforeStop(s[1..], Step(q, s[0]), c);
      assert s[..k][0] == s[0] && s[..k][1..] == s[1..][..k - 1];
    }
  }

  lemma {:induction false} CommentOff(line: string) returns (comment: Option<string>)
    ensures line == Strip(line) + CommentText(comment) && Uncut(Strip(line), comment)
  {
    var stop := FindStop(line, Outside, '#');
    if stop.Some? {
      BeforeStop(line, Outside, '#');
      comment := Some(line[stop.value + 1..]);
      assert line == line[..stop.value] + (['#'] + line[stop.value + 1..]);
    } else {
      comment := None;
      assert line + [] == line;
    }
  }

  // ---------- scalars ----------

  lemma {:induction false} ScalarSound(u: string) returns (x: Scalar)
    requires SolidEnds(u) && Trim(u) == u && ParseScalar(u).Some?
    ensures ScalarOk(x) && ScalarText(x) == u && ScalarValue(x) == ParseScalar(u).value
  {
    if u[0] == '\'' {
      var d := DecodeSingle(u[1..]).value;
      SingleParses(u[1..]);
      assert u == (['\''] + (Doubled(d.value) + ['\''])) + d.rest;
      NothingBehind(['\''] + (Doubled(d.value) + ['\'']), d.rest);
      x := Single(d.value);
      assert u == ['\''] + Doubled(d.value) + ['\''];
    } else if u[0] == '"' {
      var d := DecodeDouble(u[1..]).value;
      var ps := DoubleParses(u[1..]);
      assert u == (['"'] + (PiecesText(ps) + ['"'])) + d.rest;
      NothingBehind(['"'] + (PiecesText(ps) + ['"']), d.rest);
      x := Double(ps);
      assert u == ['"'] + PiecesText(ps) + ['"'];
    } else {
      x := Bare(u);
    }
  }

  // ---------- contents ----------

  lemma {:induction false} MarkerSound(t: string, dots: bool)
    requires SolidEnds(t) && IsMarker(t, MarkerText(dots))
    ensures t == MarkerText(dots)
  {
    var m := MarkerText(dots);
    assert t == m + t[3..];
    NothingBehind(m, t[3..]);
  }

  lemma {:induction false} KeySound(front: string) returns (gap: string)
    requires front != [] && !IsSpace(front[0])
    ensures AllSpace(gap) && front == Trim(front) + gap
  {
    var before;
    before, gap := TrimParts(front);
    assert front == before + (Trim(front) + gap);
    NothingBefore(before, Trim(front) + gap);
  }

  lemma {:induction false} ValueSound(front: string, rest: string) returns (lead: string)
    requires Trim(rest) != [] && !IsSpace((front + rest)[|front + rest| - 1])
    ensures AllSpace(lead) && rest == lead + Trim(rest)
  {
    var back;
    lead, back := TrimParts(rest);
    assert front + rest == (front + (lead + Trim(rest))) + back;
    NothingBehind(front + (lead + Trim(rest)), back);
  }

  lemma {:induction false} TrimTwice(s: string)
    ensures Trim(Trim(s)) == Trim(s)
  {
    var front, back := TrimParts(s);
    TrimIs([], Trim(s), []);
    assert [] + Trim(s) + [] == Trim(s);
  }

  lemma {:induction false} PairSound(t: string) returns (x: Source)
    requires SolidEnds(t) && ReadContent(t).Pair?
    ensures x.Setting? && x.indent == [] && x.trail == [] && x.comment == None
    ensures ValidKey(x.key) && AllSpace(x.gap) && AllSpace(x.lead) && ScalarOk(x.scalar)
    ensures Core(x) == t && Meaning(x) == ReadContent(t)
  {
    var k := FindStop(t, Outside, ':').value;
    var front, rest := t[..k], t[k + 1..];
    var key := Trim(front);
    assert ValidKey(key);
    assert front != [] && front[0] == t[0];
    var gap := KeySound(front);
    assert t == (front + [':']) + rest && Trim(rest) != [];
    var lead := ValueSound(front + [':'], rest);
    TrimTwice(rest);
    var before, behind := TrimParts(rest);
    var scalar := ScalarSound(Trim(rest));
    x := Setting([], key, gap, lead, scalar, [], None);
    assert Core(x) == t;
  }

  // ---------- lines ----------

  lemma {:induction false} SettingSound(indent: string, t: string, trail: string, comment: Option<string>)
    returns (x: Source)
    requires AllSpace(indent) && AllSpace(trail) && SolidEnds(t) && ReadContent(t).Pair?
    requires Uncut(indent + t + trail, comment)
    ensures GoodForm(x) && SourceText(x) == indent + t + trail + CommentText(comment) && Meaning(x) == ReadContent(t)
  {
    var core := PairSound(t);
    x := Setting(indent, core.key, core.gap, core.lead, core.scalar, trail, comment);
    assert Core(x) == Core(core);
  }

  lemma {:induction false} SkipSound(indent: string, t: string, trail: string, comment: Option<string>)
    returns (x: Source)
    requires AllSpace(indent) && AllSpace(trail) && SolidEnds(t) && ReadContent(t).Skip?
    ensures GoodForm(x) && SourceText(x) == indent + t + trail + CommentText(comment) && Meaning(x) == Skip
  {
    if t == [] {
      assert indent + t + trail == indent + trail;
      x := Blank(indent + trail, comment);
    } else {
      var dots := IsMarker(t, "...");
      MarkerSound(t, dots);
      x := Marker(indent, dots, trail, comment);
    }
  }

  /** A line that is accepted has a written form, and its meaning is what it reads as. */
  lemma {:induction false} LineSound(line: string) returns (x: Source)
    requires ReadLine(line) != Bad
    ensures GoodForm(x) && SourceText(x) == line && Meaning(x) == ReadLine(line)
  {
    var comment := CommentOff(line);
    var indent, trail := TrimParts(Strip(line));
    var t := Trim(Strip(line));
    if ReadContent(t).Skip? {
      x := SkipSound(indent, t, trail, comment);
    } else {
      x := SettingSound(indent, t, trail, comment);
    }
  }

  /** `line` has the form of `x`. */
  ghost predicate Writes(x: Source, line: string, r: LineResult) {
    GoodForm(x) && SourceText(x) == line && Meaning(x) == r
  }

  /** Exactly the written forms are accepted, for what they mean; every other line is an error. */
  lemma {:induction false} LineExact(line: string, r: LineResult)
    requires r != Bad
    ensures ReadLine(line) == r <==> exists x :: Writes(x, line, r)
  {
    if ReadLine(line) == r {
      var x := LineSound(line);
      assert Writes(x, line, r);
    }
    if x :| Writes(x, line, r) {
      LineReads(x);
    }
  }
}
