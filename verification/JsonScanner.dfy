/** The cursor-based scanner (`gd_tok_json_skip_ws`, `gd_tok_json_skip_value`,
    `gd_tok_jsonl_extract_string`). */
module JsonScanner {
  import opened Seqs
  import opened Bytes
  import opened JsonString
  import opened JsonParse
  import opened JsonValue

  const TEXT_LIMIT: nat := 0x1000_0000_0000_0000

  /** `gd_tok_json_skip_ws`. */
  method SkipSpacesAt(text: NulFreeData, p: nat) returns (next: nat)
    requires p <= |text|
    ensures next == p + SkipSpaces(text[p..]) <= |text| && text[next..] == Trim(text[p..])
  {
    next := p;
    while IsSpace(Peek(text, next))
      invariant p <= next <= |text| && SkipSpaces(text[p..]) == next - p + SkipSpaces(text[next..])
      decreases |text| - next
    {
      SpaceAt(text, next);
      next := next + 1;
    }
    if next < |text| {
      TailSplit(text, next);
    }
    assert text[p..][next - p..] == text[next..];
  }

  lemma {:induction false} SpaceAt(text: Data, p: nat)
    requires p < |text| && IsSpace(text[p])
    ensures SkipSpaces(text[p..]) == 1 + SkipSpaces(text[p + 1..])
  {
    TailSplit(text, p);
  }

  lemma {:induction false} AddAdd(j: nat, k: nat, r: Option<nat>)
    ensures Add(j, Add(k, r)) == Add(j + k, r)
  {
  }

  /** The state of the scan: `depth` open brackets, the closers they wait for on the stack. */
  ghost predicate Scanning(text: Data, start: nat, p: nat, stack: Data, close: Byte)
    requires start <= p <= |text|
  {
    Scan(text[start..], [close]) == Add(p - start, Scan(text[p..], stack))
  }

  lemma {:induction false} ScanNext(text: Data, start: nat, p: nat, q: nat, stack: Data, deeper: Data, close: Byte)
    requires start <= p <= q <= |text| && Scanning(text, start, p, stack, close)
    requires Scan(text[p..], stack) == Add(q - p, Scan(text[q..], deeper))
    ensures Scanning(text, start, q, deeper, close)
  {
    AddAdd(p - start, q - p, Scan(text[q..], deeper));
  }

  /** The stack after a byte outside strings. */
  function Stacked(stack: Data, c: Byte): Data
    requires stack != []
  {
    if Opens(c) then stack + [Closer(c)] else if c == stack[|stack| - 1] then stack[..|stack| - 1] else stack
  }

  /** One step of the scan at a byte that is not a quote. */
  lemma {:induction false} ScanAt(text: Data, p: nat, stack: Data)
    requires p < |text| && stack != [] && text[p] != QUOTE
    ensures var c := text[p];
            Scan(text[p..], stack) ==
            if Opens(c) && |stack| >= MAX_DEPTH then None else Add(1, Scan(text[p + 1..], Stacked(stack, c)))
  {
    assert text[p..][0] == text[p] && text[p..][1..] == text[p + 1..];
  }

  lemma {:induction false} ScanStringAt(text: Data, p: nat, stack: Data)
    requires p < |text| && stack != [] && text[p] == QUOTE
    ensures ParseString(text[p..]).None? ==> Scan(text[p..], stack).None?
    ensures ParseString(text[p..]).Some? ==>
              var n := ParseString(text[p..]).value.1;
              p + n <= |text| && Scan(text[p..], stack) == Add(n, Scan(text[p + n..], stack))
  {
    assert text[p..][0] == text[p];
    if ParseString(text[p..]).Some? {
      var n := ParseString(text[p..]).value.1;
      assert text[p..][n..] == text[p + n..];
    }
  }

  /** The container loop: the explicit stack of closers is a fixed array. */
  method ScanContainer(text: NulFreeData, start: nat, close: Byte) returns (ok: bool, p: nat)
    requires start <= |text| < TEXT_LIMIT
    ensures match Scan(text[start..], [close]) case None => !ok case Some(n) => ok && p == start + n
  {
    var stack := new Byte[MAX_DEPTH](i => 0);
    var depth := 1;
    stack[0] := close;
    p := start;
    assert stack[..1] == [close];
    while p < |text| && depth > 0
      invariant start <= p <= |text| && 0 <= depth <= MAX_DEPTH == stack.Length
      invariant Scanning(text, start, p, stack[..depth], close)
      decreases |text| - p
    {
      ghost var before := stack[..depth];
      var next;
      ok, next, depth := ScanStep(text, p, stack, depth);
      if !ok {
        return false, p;
      }
      ScanNext(text, start, p, next, before, stack[..depth], close);
      p := next;
    }
    ok := depth == 0;
  }

  /** One round of the container loop: a whole string, or one byte outside strings. */
  method ScanStep(text: NulFreeData, p: nat, stack: array<Byte>, depth0: nat) returns (ok: bool, next: nat, depth: nat)
    requires p < |text| < TEXT_LIMIT && 0 < depth0 <= stack.Length == MAX_DEPTH
    modifies stack
    ensures !ok ==> Scan(text[p..], old(stack[..depth0])).None?
    ensures ok ==> p < next <= |text| && depth <= MAX_DEPTH
                   && Scan(text[p..], old(stack[..depth0])) == Add(next - p, Scan(text[next..], stack[..depth]))
  {
    ghost var before := stack[..depth0];
    depth := depth0;
    if text[p] == QUOTE {
      var value;
      value, next := ParseStringAt(text, p);
      ScanStringAt(text, p, before);
      return value.Some?, next, depth;
    }
    next := p + 1;
    ScanAt(text, p, before);
    if Opens(text[p]) && depth >= MAX_DEPTH {
      return false, p, depth;
    }
    depth := Bracket(stack, depth, text[p]);
    ok := true;
  }

  /** What one byte outside strings does to the stack. */
  method Bracket(stack: array<Byte>, depth0: nat, c: Byte) returns (depth: nat)
    requires 0 < depth0 <= stack.Length == MAX_DEPTH && (Opens(c) ==> depth0 < MAX_DEPTH)
    modifies stack
    ensures depth <= MAX_DEPTH
    ensures stack[..depth] == Stacked(old(stack[..depth0]), c)
  {
    depth := depth0;
    if Opens(c) {
      stack[depth] := Closer(c);
      depth := depth + 1;
    } else if c == stack[depth - 1] {
      depth := depth - 1;
    }
  }

  lemma {:induction false} TailSplit(text: Data, p: nat)
    requires p < |text|
    ensures text[p..] != [] && text[p..][0] == text[p] && text[p..][1..] == text[p + 1..]
  {
  }

  /** `gd_tok_json_skip_value`. */
  method SkipValueAt(text: NulFreeData, p: nat) returns (ok: bool, next: nat)
    requires p <= |text| < TEXT_LIMIT
    ensures match SkipValue(text[p..]) case None => !ok case Some(n) => ok && next == p + n <= |text|
  {
    var q := SkipSpacesAt(text, p);
    ok, next := SkipSolidAt(text, q);
  }

  /** The same once white space is skipped. */
  method SkipSolidAt(text: NulFreeData, q: nat) returns (ok: bool, next: nat)
    requires q <= |text| < TEXT_LIMIT
    ensures match SkipSolid(text[q..]) case None => !ok case Some(n) => ok && next == q + n <= |text|
  {
    next := q;
    var c := Peek(text, q);
    if q < |text| {
      TailSplit(text, q);
    }
    if c == QUOTE {
      var value;
      value, next := ParseStringAt(text, q);
      return value.Some?, next;
    }
    if Opens(c) {
      ok, next := ScanContainer(text, q + 1, Closer(c));
      return;
    }
    if c == 0 {
      return false, q;
    }
    while next < |text| && !Delimits(text[next])
      invariant q <= next <= |text| && ScalarLength(text[q..]) == next - q + ScalarLength(text[next..])
    {
      TailSplit(text, next);
      next := next + 1;
    }
    ok := true;
  }

  /** `gd_tok_jsonl_extract_string`. */
  method ExtractString(line: NulFreeData, field: NulFreeData) returns (r: Extracted)
    requires |line| < TEXT_LIMIT
    ensures r == Extract(line, field)
  {
    assert line[0..] == line;
    var p := SkipSpacesAt(line, 0);
    if Peek(line, p) != OPEN_OBJECT {
      return Malformed;
    }
    TailSplit(line, p);
    p := p + 1;
    while true
      invariant p <= |line| && Extract(line, field) == ExtractMember(line[p..], field)
      decreases |line| - p
    {
      var found, next := ExtractMemberAt(line, p, field);
      if found.Some? {
        return found.value;
      }
      p := next;
    }
  }

  /** One round of the member loop: the answer, or the position behind a comma. */
  method ExtractMemberAt(line: NulFreeData, p0: nat, field: NulFreeData) returns (r: Option<Extracted>, next: nat)
    requires p0 <= |line| < TEXT_LIMIT
    ensures r.Some? ==> r.value == ExtractMember(line[p0..], field)
    ensures r.None? ==> p0 < next <= |line| && ExtractMember(line[p0..], field) == ExtractMember(line[next..], field)
  {
    next := p0;
    var p := SkipSpacesAt(line, p0);
    if p < |line| {
      TailSplit(line, p);
    }
    if Peek(line, p) == CLOSE_OBJECT {
      return Some(NotFound), next;
    }
    r, next := ExtractKeyAt(line, p, field);
    NotClosed(line[p0..], line[p..], field);
  }

  /** At a key. */
  method ExtractKeyAt(line: NulFreeData, p: nat, field: NulFreeData) returns (r: Option<Extracted>, next: nat)
    requires p <= |line| < TEXT_LIMIT
    ensures r.Some? ==> r.value == ExtractKey(line[p..], field)
    ensures r.None? ==> p < next <= |line| && ExtractKey(line[p..], field) == ExtractMember(line[next..], field)
  {
    next := p;
    if p < |line| {
      TailSplit(line, p);
    }
    if Peek(line, p) != QUOTE {
      return Some(Malformed), next;
    }
    var key, q := ParseStringAt(line, p);
    if key.None? {
      return Some(Malformed), next;
    }
    KeyParsed(line, p, q, key.value, field);
    r, next := ExtractValueAt(line, key.value, q, field);
  }

  lemma {:induction false} KeyParsed(line: Data, p: nat, q: nat, key: Data, field: Data)
    requires p <= q <= |line| && ParseString(line[p..]) == Some((key, q - p))
    ensures ExtractKey(line[p..], field) == ExtractValue(key, line[q..], field)
  {
    assert line[p..][q - p..] == line[q..];
  }

  lemma {:induction false} NotClosed(s: Data, t: Data, field: Data)
    requires Trim(s) == t && (t == [] || t[0] != CLOSE_OBJECT)
    ensures ExtractMember(s, field) == ExtractKey(t, field)
  {
  }

  method ExtractValueAt(line: NulFreeData, key: Data, p0: nat, field: NulFreeData)
    returns (r: Option<Extracted>, next: nat)
    requires p0 <= |line| < TEXT_LIMIT
    ensures r.Some? ==> r.value == ExtractValue(key, line[p0..], field)
    ensures r.None? ==>
        p0 < next <= |line|
        && ExtractValue(key, line[p0..], field) == ExtractMember(line[next..], field)
  {
    next := p0;
    var p := SkipSpacesAt(line, p0);
    if Peek(line, p) != COLON {
      ColonMissing(key, line[p0..], line[p..], field);
      return Some(Malformed), next;
    }
    TailSplit(line, p);
    var q := SkipSpacesAt(line, p + 1);
    ColonAt(key, line[p0..], line[p..], line[q..], field);
    r, next := AfterColonAt(line, key, q, field);
  }

  lemma {:induction false} ColonMissing(key: Data, s: Data, u: Data, field: Data)
    requires Trim(s) == u && (u == [] || u[0] != COLON)
    ensures ExtractValue(key, s, field) == Malformed
  {
  }

  lemma {:induction false} ColonAt(key: Data, s: Data, u: Data, x: Data, field: Data)
    requires Trim(s) == u && u != [] && u[0] == COLON && Trim(u[1..]) == x
    ensures ExtractValue(key, s, field) == AfterColon(key, x, field)
  {
  }

  method AfterColonAt(line: NulFreeData, key: Data, p0: nat, field: NulFreeData)
    returns (r: Option<Extracted>, next: nat)
    requires p0 <= |line| < TEXT_LIMIT
    ensures r.Some? ==> r.value == AfterColon(key, line[p0..], field)
    ensures r.None? ==> p0 < next <= |line| && AfterColon(key, line[p0..], field) == ExtractMember(line[next..], field)
  {
    next := p0;
    if key == field {
      var value := FieldValueAt(line, p0);
      return Some(value), next;
    }
    var ok, q := SkipValueAt(line, p0);
    if !ok {
      return Some(Malformed), next;
    }
    var p := SkipSpacesAt(line, q);
    ValueSkipped(line, p0, q, p, key, field);
    r, next := ExtractNextAt(line, p, field);
  }

  lemma {:induction false} ValueSkipped(line: Data, p0: nat, q: nat, p: nat, key: Data, field: Data)
    requires p0 <= q <= p <= |line| && key != field && SkipValue(line[p0..]) == Some(q - p0)
        && line[p..] == Trim(line[q..])
    ensures AfterColon(key, line[p0..], field) == ExtractNext(line[p..], field)
  {
    assert line[p0..][q - p0..] == line[q..];
  }

  method FieldValueAt(line: NulFreeData, p: nat) returns (r: Extracted)
    requires p <= |line| < TEXT_LIMIT
    ensures r == FieldValue(line[p..])
  {
    if p < |line| {
      TailSplit(line, p);
    }
    if Peek(line, p) != QUOTE {
      return Malformed;
    }
    var value, q := ParseStringAt(line, p);
    r := if value.Some? then Found(value.value) else Malformed;
  }

  method ExtractNextAt(line: NulFreeData, p: nat, field: NulFreeData) returns (r: Option<Extracted>, next: nat)
    requires p <= |line|
    ensures r.Some? ==> r.value == ExtractNext(line[p..], field)
    ensures r.None? ==> p < next <= |line| && ExtractNext(line[p..], field) == ExtractMember(line[next..], field)
  {
    next := p;
    if p < |line| {
      TailSplit(line, p);
    }
    if Peek(line, p) == COMMA {
      return None, p + 1;
    }
    r := Some(if Peek(line, p) == CLOSE_OBJECT then NotFound else Malformed);
  }
}
