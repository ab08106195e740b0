/** Skipping and field extraction on well-formed JSON text. */
module JsonExtract {
  import opened Seqs
  import opened Bytes
  import opened JsonString
  import opened JsonValue

  ghost predicate StartsSolid(s: Data) { s == [] || !IsSpace(s[0]) }

  lemma {:induction false} SpacesSkipped(w: Data, s: Data)
    requires Spaces(w) && StartsSolid(s)
    ensures SkipSpaces(w + s) == |w| && Trim(w + s) == s
  {
    if w == [] {
      assert w + s == s;
    } else {
      assert (w + s)[1..] == w[1..] + s;
      SpacesSkipped(w[1..], s);
    }
  }

  /** A value never starts with white space. */
  lemma {:induction false} ValueStartsSolid(v: Json, rest: Data)
    requires WellFormed(v)
    ensures Text(v) != [] && StartsSolid(Text(v) + rest) && !IsSpace(Text(v)[0])
    ensures (Text(v) + rest)[0] == Text(v)[0]
    ensures Text(v)[0] == QUOTE <==> v.JString?
    ensures Opens(Text(v)[0]) <==> v.JArray? || v.JObject?
  {
  }

  // ---------- skipping ----------

  /** Everything between the brackets of a container. */
  function Inside(v: Json): Data
    requires v.JArray? || v.JObject?
  {
    match v
    case JArray(lead, items) => if items.NoItem? then lead else ItemsText(items)
    case JObject(lead, members) => MembersText(lead, members)
  }

  lemma {:induction false} InsidePasses(v: Json)
    requires WellFormed(v) && (v.JArray? || v.JObject?) && Depth(v) <= MAX_DEPTH
    ensures Text(v) == [Text(v)[0]] + Inside(v) + [Closer(Text(v)[0])]
    ensures Passes(Inside(v), [Closer(Text(v)[0])])
  {
    match v
    case JArray(lead, items) =>
      if items.NoItem? {
        SpacesPass(lead, [CLOSE_ARRAY]);
      } else {
        ItemsPass(items, [CLOSE_ARRAY]);
      }
    case JObject(lead, members) =>
      MembersPass(lead, members, [CLOSE_OBJECT]);
  }

  lemma {:induction false} SkipContainer(v: Json, rest: Data)
    requires WellFormed(v) && (v.JArray? || v.JObject?) && Depth(v) <= MAX_DEPTH
    ensures SkipSolid(Text(v) + rest) == Some(|Text(v)|)
  {
    InsidePasses(v);
    var open, inside := Text(v)[0], Inside(v);
    ValueStartsSolid(v, rest);
    BehindOpen(open, inside, Closer(open), rest);
    ScanInside(inside, Closer(open), rest);
  }

  lemma {:induction false} ScanInside(inside: Data, close: Byte, rest: Data)
    requires Passes(inside, [close]) && (close == CLOSE_ARRAY || close == CLOSE_OBJECT)
    ensures Scan(inside + ([close] + rest), [close]) == Some(|inside| + 1)
  {
    assert Scan(inside + ([close] + rest), [close]) == Add(|inside|, Scan([close] + rest, [close]));
    Closing(close, [], rest);
    assert [] + [close] == [close];
  }

  /** `skip_value` stops exactly at the end of a string or container, whatever stands behind it. */
  lemma {:induction false} SkipWhole(w: Data, v: Json, rest: Data)
    requires Spaces(w) && WellFormed(v) && !v.JScalar? && Depth(v) <= MAX_DEPTH
    ensures SkipValue(w + (Text(v) + rest)) == Some(|w| + |Text(v)|)
  {
    SolidWhole(v, rest);
    ValueStartsSolid(v, rest);
    SpacesSkipped(w, Text(v) + rest);
  }

  lemma {:induction false} SolidWhole(v: Json, rest: Data)
    requires WellFormed(v) && !v.JScalar? && Depth(v) <= MAX_DEPTH
    ensures SkipSolid(Text(v) + rest) == Some(|Text(v)|)
  {
    if v.JString? {
      ValueStartsSolid(v, rest);
      ParseStringComplete(v.characters, rest);
    } else {
      SkipContainer(v, rest);
    }
  }

  lemma {:induction false} BehindOpen(open: Byte, inside: Data, close: Byte, rest: Data)
    ensures ([open] + inside + [close] + rest)[1..] == inside + ([close] + rest)
  {
  }

  lemma {:induction false} ScalarLengthOf(t: Data, rest: Data)
    requires forall i :: 0 <= i < |t| ==> !Delimits(t[i])
    ensures ScalarLength(t + rest) == |t| + ScalarLength(rest)
  {
    if t == [] {
      assert t + rest == rest;
    } else {
      assert (t + rest)[1..] == t[1..] + rest;
      ScalarLengthOf(t[1..], rest);
    }
  }

  /** For a scalar it stops at the next delimiter. */
  lemma {:induction false} SkipScalar(w: Data, token: Data, rest: Data)
    requires Spaces(w) && token != [] && Plain(token)
    ensures SkipValue(w + (token + rest)) == Some(|w| + |token| + ScalarLength(rest))
  {
    SpacesSkipped(w, token + rest);
    ScalarLengthOf(token, rest);
  }

  /** Behind a value and its white space the cursor finds the delimiter that follows. */
  lemma {:induction false} SkipToDelimiter(v: Json, after: Data, d: Byte, rest: Data)
    requires WellFormed(v) && Depth(v) <= MAX_DEPTH && Spaces(after) && Delimits(d)
    ensures var x := Text(v) + (after + ([d] + rest));
            SkipValue(x).Some? && Trim(x[SkipValue(x).value..]) == [d] + rest
  {
    if v.JScalar? {
      ScalarToDelimiter(v.token, after, d, rest);
    } else {
      WholeToDelimiter(v, after, d, rest);
    }
  }

  lemma {:induction false} WholeToDelimiter(v: Json, after: Data, d: Byte, rest: Data)
    requires WellFormed(v) && !v.JScalar? && Depth(v) <= MAX_DEPTH && Spaces(after) && Delimits(d)
    ensures var x := Text(v) + (after + ([d] + rest));
            SkipValue(x).Some? && Trim(x[SkipValue(x).value..]) == [d] + rest
  {
    var f := after + ([d] + rest);
    SkipWhole([], v, f);
    FrontDropped(Text(v), f);
    SpacesSkipped(after, [d] + rest);
  }

  lemma {:induction false} FrontDropped(t: Data, f: Data)
    ensures [] + (t + f) == t + f && (t + f)[|t|..] == f
  {
  }

  lemma {:induction false} ScalarToDelimiter(token: Data, after: Data, d: Byte, rest: Data)
    requires token != [] && Plain(token) && Spaces(after) && Delimits(d)
    ensures var x := token + (after + ([d] + rest));
            SkipValue(x).Some? && Trim(x[SkipValue(x).value..]) == [d] + rest
  {
    var f := after + ([d] + rest);
    DelimiterNext(token, after, d, rest);
    SkipScalar([], token, f);
    FrontDropped(token, f);
  }

  lemma {:induction false} DelimiterNext(token: Data, after: Data, d: Byte, rest: Data)
    requires Spaces(after) && Delimits(d)
    ensures var f := after + ([d] + rest);
            ScalarLength(f) == |after| && Trim((token + f)[|token| + |after|..]) == [d] + rest
  {
    var g := [d] + rest;
    ScalarLengthOf(after, g);
    assert (token + (after + g))[|token| + |after|..] == g;
    SpacesSkipped([], g);
    assert [] + g == g;
  }

  // ---------- extraction ----------

  /** What a field's value is, by the members themselves: the first member with that name decides. */
  function Lookup(ms: Members, field: Data): Extracted {
    match ms
    case NoMember => NotFound
    case Member(_, key, _, _, value, _, rest) =>
      if PiecesValue(key) == field then (if value.JString? then Found(PiecesValue(value.characters)) else Malformed)
      else Lookup(rest, field)
  }

  /** No value of a member is nested deeper than the skipper's stack. */
  ghost predicate Shallow(ms: Members) {
    ms.Member? ==> Depth(ms.value) <= MAX_DEPTH && Shallow(ms.rest)
  }

  /** The text behind one member: a comma and more members, or the closing brace. */
  function Behind(ms: Members, tail: Data): (s: Data)
    requires ms.Member?
    ensures s != [] && Delimits(s[0])
  {
    (if ms.rest.NoMember? then [] else [COMMA] + MembersText([], ms.rest)) + ([CLOSE_OBJECT] + tail)
  }

  lemma {:induction false} MemberParts(lead: Data, ms: Members, tail: Data)
    requires ms.Member?
    ensures MembersText(lead, ms) + ([CLOSE_OBJECT] + tail) ==
            ms.before + (StringText(ms.key)
              + (ms.afterKey + ([COLON] + (ms.beforeValue + (Text(ms.value) + (ms.after + Behind(ms, tail)))))))
  {
    var more := if ms.rest.NoMember? then [] else [COMMA] + MembersText([], ms.rest);
    Assoc(FirstMember(ms), more, [CLOSE_OBJECT] + tail);
    var g := Behind(ms, tail);
    var a, b, c, d, e, f := ms.before, StringText(ms.key), ms.afterKey, [COLON], ms.beforeValue, Text(ms.value);
    Assoc(a + b + c + d + e + f, ms.after, g);
    Assoc(a + b + c + d + e, f, ms.after + g);
    Assoc(a + b + c + d, e, f + (ms.after + g));
    Assoc(a + b + c, d, e + (f + (ms.after + g)));
    Assoc(a + b, c, d + (e + (f + (ms.after + g))));
    Assoc(a, b, c + (d + (e + (f + (ms.after + g)))));
  }

  /** The loop on one member: its key, then either its value or the text behind it. */
  lemma {:induction false} MemberStep(before: Data, key: seq<Character>, afterKey: Data, beforeValue: Data,
        value: Json, after: Data, d: Byte, rest: Data, field: Data)
    requires Spaces(before) && Spaces(afterKey) && Spaces(beforeValue) && Spaces(after)
    requires WellFormed(value) && Depth(value) <= MAX_DEPTH && (d == COMMA || d == CLOSE_OBJECT)
    ensures var x := Text(value) + (after + ([d] + rest));
            ExtractMember(before + (StringText(key) + (afterKey + ([COLON] + (beforeValue + x)))), field) ==
            if PiecesValue(key) == field then (if value.JString? then Found(PiecesValue(value.characters))
              else Malformed)
            else if d == COMMA then ExtractMember(rest, field) else NotFound
  {
    var x := Text(value) + (after + ([d] + rest));
    KeyFound(before, key, afterKey + ([COLON] + (beforeValue + x)));
    assert ExtractKey(StringText(key) + (afterKey + ([COLON] + (beforeValue + x))), field) ==
           ExtractValue(PiecesValue(key), afterKey + ([COLON] + (beforeValue + x)), field);
    ValueStep(PiecesValue(key), afterKey, beforeValue, value, after, d, rest, field);
  }

  lemma {:induction false} ValueStep(key: Data, afterKey: Data, beforeValue: Data, value: Json, after: Data, d: Byte,
        rest: Data, field: Data)
    requires Spaces(afterKey) && Spaces(beforeValue) && Spaces(after)
    requires WellFormed(value) && Depth(value) <= MAX_DEPTH && (d == COMMA || d == CLOSE_OBJECT)
    ensures var x := Text(value) + (after + ([d] + rest));
            ExtractValue(key, afterKey + ([COLON] + (beforeValue + x)), field) ==
            if key == field then (if value.JString? then Found(PiecesValue(value.characters)) else Malformed)
            else if d == COMMA then ExtractMember(rest, field) else NotFound
  {
    var x := Text(value) + (after + ([d] + rest));
    ColonFound(afterKey, beforeValue, x, value, after + ([d] + rest));
    AfterColonStep(key, value, after, d, rest, field);
  }

  lemma {:induction false} AfterColonStep(key: Data, value: Json, after: Data, d: Byte, rest: Data, field: Data)
    requires Spaces(after) && WellFormed(value) && Depth(value) <= MAX_DEPTH && (d == COMMA || d == CLOSE_OBJECT)
    ensures AfterColon(key, Text(value) + (after + ([d] + rest)), field) ==
            if key == field then (if value.JString? then Found(PiecesValue(value.characters)) else Malformed)
            else if d == COMMA then ExtractMember(rest, field) else NotFound
  {
    if key == field {
      ValueParsed(value, after + ([d] + rest));
    } else {
      SkipToDelimiter(value, after, d, rest);
      NextFound(d, rest, field);
    }
  }

  lemma {:induction false} ColonFound(afterKey: Data, beforeValue: Data, x: Data, value: Json, rest: Data)
    requires Spaces(afterKey) && Spaces(beforeValue) && WellFormed(value) && x == Text(value) + rest
    ensures var u := [COLON] + (beforeValue + x);
            Trim(afterKey + u) == u && u[0] == COLON && Trim(u[1..]) == x
  {
    var u := [COLON] + (beforeValue + x);
    SpacesSkipped(afterKey, u);
    assert u[1..] == beforeValue + x;
    ValueStartsSolid(value, rest);
    SpacesSkipped(beforeValue, x);
  }

  lemma {:induction false} NextFound(d: Byte, rest: Data, field: Data)
    requires d == COMMA || d == CLOSE_OBJECT
    ensures ExtractNext([d] + rest, field) == if d == COMMA then ExtractMember(rest, field) else NotFound
  {
    assert ([d] + rest)[1..] == rest;
  }

  lemma {:induction false} KeyFound(before: Data, key: seq<Character>, rest: Data)
    requires Spaces(before)
    ensures var t := StringText(key) + rest;
            && Trim(before + t) == t && t != [] && t[0] == QUOTE
            && ParseString(t) == Some((PiecesValue(key), |StringText(key)|)) && t[|StringText(key)|..] == rest
  {
    SpacesSkipped(before, StringText(key) + rest);
    ParseStringComplete(key, rest);
  }

  lemma {:induction false} ValueParsed(value: Json, rest: Data)
    requires WellFormed(value)
    ensures FieldValue(Text(value) + rest) == if value.JString? then Found(PiecesValue(value.characters)) else Malformed
  {
    ValueStartsSolid(value, rest);
    if value.JString? {
      ParseStringComplete(value.characters, rest);
    }
  }

  lemma {:induction false} ExtractMembers(lead: Data, ms: Members, tail: Data, field: Data)
    requires Spaces(lead) && WellFormedMembers(ms) && Shallow(ms)
    ensures ExtractMember(MembersText(lead, ms) + ([CLOSE_OBJECT] + tail), field) == Lookup(ms, field)
    decreases ms
  {
    if ms.NoMember? {
      SpacesSkipped(lead, [CLOSE_OBJECT] + tail);
    } else {
      MemberParts(lead, ms, tail);
      var g := Behind(ms, tail);
      assert g == [g[0]] + g[1..];
      MemberStep(ms.before, ms.key, ms.afterKey, ms.beforeValue, ms.value, ms.after, g[0], g[1..], field);
      if !ms.rest.NoMember? {
        Assoc([COMMA], MembersText([], ms.rest), [CLOSE_OBJECT] + tail);
        assert g[1..] == MembersText([], ms.rest) + ([CLOSE_OBJECT] + tail);
        ExtractMembers([], ms.rest, tail, field);
      }
    }
  }

  /** For any well-formed object text, whatever follows it: the decoded value of the first member with
      that name if it is a string, an error if it is not, and not-found if there is none. */
  lemma {:induction false} ExtractExact(w: Data, lead: Data, ms: Members, tail: Data, field: Data)
    requires Spaces(w) && WellFormed(JObject(lead, ms)) && Shallow(ms)
    ensures Extract(w + (Text(JObject(lead, ms)) + tail), field) == Lookup(ms, field)
  {
    var t := Text(JObject(lead, ms)) + tail;
    SpacesSkipped(w, t);
    BehindOpen(OPEN_OBJECT, MembersText(lead, ms), CLOSE_OBJECT, tail);
    ExtractMembers(lead, ms, tail, field);
  }
}
