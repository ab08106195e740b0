/** Nothing is extracted that is not there: what a found value says about any text, well-formed or not. */
module JsonFound {
  import opened Bytes
  import opened JsonString
  import opened JsonValue

  /** The way from the opening brace to a member: past members with other names, whose values are whatever the
      skipper took for values, to a member whose value is a string. */
  datatype Way =
    | Here(before: Data, key: seq<Character>, afterKey: Data, beforeValue: Data, characters: seq<Character>, rest: Data)
    | Past(before: Data, key: seq<Character>, afterKey: Data, beforeValue: Data, value: Data, after: Data, more: Way)

  function WayText(w: Way): Data {
    match w
    case Here(before, key, afterKey, beforeValue, characters, rest) =>
      before + (StringText(key) + (afterKey + ([COLON] + (beforeValue + (StringText(characters) + rest)))))
    case Past(before, key, afterKey, beforeValue, value, after, more) =>
      var behind := value + (after + ([COMMA] + WayText(more)));
      before + (StringText(key) + (afterKey + ([COLON] + (beforeValue + behind))))
  }

  /** White space where white space belongs, and the first member of that name at the end. */
  ghost predicate WayOk(w: Way, field: Data) {
    && Spaces(w.before) && Spaces(w.afterKey) && Spaces(w.beforeValue)
    && match w
       case Here(_, key, _, _, _, _) => PiecesValue(key) == field
       case Past(_, key, _, _, _, after, more) => PiecesValue(key) != field && Spaces(after) && WayOk(more, field)
  }

  function WayValue(w: Way): Data {
    match w
    case Here(_, _, _, _, characters, _) => PiecesValue(characters)
    case Past(_, _, _, _, _, _, more) => WayValue(more)
  }

  /** White space and the ends of scalars: the characters of section 2 of RFC 8259. */
  lemma {:induction false} CharactersExact(b: Byte)
    ensures IsSpace(b) <==> b == 0x20 || b == 0x09 || b == 0x0A || b == 0x0D
    ensures Delimits(b) <==> b == 0x2C || b == 0x5D || b == 0x7D
    ensures Opens(b) <==> b == 0x5B || b == 0x7B
  {
  }

  lemma {:induction false} TrimSplit(s: Data) returns (front: Data)
    ensures Spaces(front) && s == front + Trim(s)
  {
    front := s[..SkipSpaces(s)];
    FrontSpaces(s);
  }

  lemma {:induction false} FrontSpaces(s: Data)
    ensures Spaces(s[..SkipSpaces(s)])
  {
    if s != [] && IsSpace(s[0]) {
      FrontSpaces(s[1..]);
      var n := SkipSpaces(s[1..]);
      assert s[..n + 1] == [s[0]] + s[1..][..n];
    }
  }

  lemma {:induction false} LiteralSplit(t: Data) returns (ps: seq<Character>)
    requires ParseString(t).Some?
    ensures t == StringText(ps) + t[ParseString(t).value.1..] && PiecesValue(ps) == ParseString(t).value.0
  {
    ps := ParsedIsLiteral(t);
  }

  lemma {:induction false} HeadSplit(s: Data, b: Byte)
    requires s != [] && s[0] == b
    ensures s == [b] + s[1..]
  {
  }

  lemma {:induction false} MemberSteps(s: Data, field: Data)
    requires ExtractMember(s, field).Found?
    ensures ParseString(Trim(s)).Some?
    ensures var (key, n) := ParseString(Trim(s)).value;
            var u := Trim(Trim(s)[n..]);
            u != [] && u[0] == COLON && AfterColon(key, Trim(u[1..]), field) == ExtractMember(s, field)
            && |u| < |s|
  {
    var t := Trim(s);
    assert ExtractMember(s, field) == ExtractKey(t, field);
    var (key, n) := ParseString(t).value;
    assert ExtractKey(t, field) == ExtractValue(key, t[n..], field);
  }

  lemma {:induction false} PastSteps(key: Data, x: Data, field: Data)
    requires key != field && AfterColon(key, x, field).Found?
    ensures SkipValue(x).Some?
    ensures var y := Trim(x[SkipValue(x).value..]);
            y != [] && y[0] == COMMA && ExtractMember(y[1..], field) == AfterColon(key, x, field) && |y| <= |x|
  {
    var y := Trim(x[SkipValue(x).value..]);
    assert AfterColon(key, x, field) == ExtractNext(y, field);
  }

  lemma {:induction false} HereSound(before: Data, key: seq<Character>, afterKey: Data, beforeValue: Data, x: Data,
        field: Data) returns (w: Way)
    requires Spaces(before) && Spaces(afterKey) && Spaces(beforeValue) && PiecesValue(key) == field
    requires FieldValue(x).Found?
    ensures w.Here? && WayText(w) == before + (StringText(key) + (afterKey + ([COLON] + (beforeValue + x))))
    ensures WayOk(w, field) && Found(WayValue(w)) == FieldValue(x)
  {
    var ps := LiteralSplit(x);
    w := Here(before, key, afterKey, beforeValue, ps, x[ParseString(x).value.1..]);
  }

  lemma {:induction false} PastSound(before: Data, key: seq<Character>, afterKey: Data, beforeValue: Data, x: Data,
        field: Data, more: Way) returns (w: Way)
    requires Spaces(before) && Spaces(afterKey) && Spaces(beforeValue) && PiecesValue(key) != field
    requires SkipValue(x).Some? && WayOk(more, field)
    requires Trim(x[SkipValue(x).value..]) == [COMMA] + WayText(more)
    ensures w.Past? && WayText(w) == before + (StringText(key) + (afterKey + ([COLON] + (beforeValue + x))))
    ensures WayOk(w, field) && WayValue(w) == WayValue(more)
  {
    var m := SkipValue(x).value;
    var after := TrimSplit(x[m..]);
    w := Past(before, key, afterKey, beforeValue, x[..m], after, more);
    assert x == x[..m] + (after + ([COMMA] + WayText(more)));
  }

  /** The part of a way from the value on, behind the space in front of it. */
  lemma {:induction false} ValueSound(before: Data, key: seq<Character>, afterKey: Data, beforeValue: Data, x: Data,
        field: Data) returns (w: Way)
    requires Spaces(before) && Spaces(afterKey) && Spaces(beforeValue)
    requires AfterColon(PiecesValue(key), x, field).Found?
    ensures WayText(w) == before + (StringText(key) + (afterKey + ([COLON] + (beforeValue + x))))
    ensures WayOk(w, field) && Found(WayValue(w)) == AfterColon(PiecesValue(key), x, field)
    decreases |x|, 0
  {
    if PiecesValue(key) == field {
      w := HereSound(before, key, afterKey, beforeValue, x, field);
    } else {
      PastSteps(PiecesValue(key), x, field);
      var y := Trim(x[SkipValue(x).value..]);
      HeadSplit(y, COMMA);
      var more := MemberSound(y[1..], field);
      w := PastSound(before, key, afterKey, beforeValue, x, field, more);
    }
  }

  lemma {:induction false} MemberSound(s: Data, field: Data) returns (w: Way)
    requires ExtractMember(s, field).Found?
    ensures WayText(w) == s && WayOk(w, field) && Found(WayValue(w)) == ExtractMember(s, field)
    decreases |s|, 1
  {
    MemberSteps(s, field);
    var before := TrimSplit(s);
    var t := Trim(s);
    var key := LiteralSplit(t);
    var behind := t[ParseString(t).value.1..];
    var afterKey := TrimSplit(behind);
    var u := Trim(behind);
    HeadSplit(u, COLON);
    var beforeValue := TrimSplit(u[1..]);
    w := ValueSound(before, key, afterKey, beforeValue, Trim(u[1..]), field);
  }

  /** Whatever the text: a value is found only behind an opening brace and a way to the first member of that name,
      and it is the value of that member's string. */
  lemma {:induction false} FoundIsThere(s: Data, field: Data) returns (lead: Data, w: Way)
    requires Extract(s, field).Found?
    ensures Spaces(lead) && s == lead + ([OPEN_OBJECT] + WayText(w))
    ensures WayOk(w, field) && Extract(s, field) == Found(WayValue(w))
  {
    lead := TrimSplit(s);
    HeadSplit(Trim(s), OPEN_OBJECT);
    w := MemberSound(Trim(s)[1..], field);
  }
}
