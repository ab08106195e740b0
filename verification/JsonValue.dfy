/** Skipping JSON values and finding a member of an object: specification and its meaning on
    well-formed text. */
module JsonValue {
  import opened Seqs
  import opened Bytes
  import opened JsonString

  const COMMA: Byte := 44
  const COLON: Byte := 58
  const OPEN_ARRAY: Byte := 91
  const CLOSE_ARRAY: Byte := 93
  const OPEN_OBJECT: Byte := 123
  const CLOSE_OBJECT: Byte := 125
  const MAX_DEPTH: nat := 128

  predicate IsSpace(b: Byte) { b == 32 || b == 9 || b == 10 || b == 13 }

  ghost predicate Spaces(s: Data) { forall i :: 0 <= i < |s| ==> IsSpace(s[i]) }

  predicate Opens(b: Byte) { b == OPEN_ARRAY || b == OPEN_OBJECT }

  predicate Delimits(b: Byte) { b == COMMA || b == CLOSE_ARRAY || b == CLOSE_OBJECT }

  function Closer(b: Byte): Byte { if b == OPEN_OBJECT then CLOSE_OBJECT else CLOSE_ARRAY }

  // ---------- what the code computes ----------

  /** Leading white space. */
  function SkipSpaces(s: Data): (n: nat)
    ensures n <= |s| && (n < |s| ==> !IsSpace(s[n]))
  {
    if s != [] && IsSpace(s[0]) then 1 + SkipSpaces(s[1..]) else 0
  }

  function Trim(s: Data): Data { s[SkipSpaces(s)..] }

  function Add(k: nat, r: Option<nat>): Option<nat> {
    match r case None => None case Some(n) => Some(k + n)
  }

  /** Bytes up to the point where every bracket on the stack is closed; strings are skipped whole. */
  function Scan(s: Data, stack: Data): (r: Option<nat>)
    ensures r.Some? ==> r.value <= |s|
    decreases |s|
  {
    if stack == [] then Some(0)
    else if s == [] then None
    else if s[0] == QUOTE then
      match ParseString(s)
      case None => None
      case Some((_, n)) => Add(n, Scan(s[n..], stack))
    else if Opens(s[0]) then
      if |stack| >= MAX_DEPTH then None else Add(1, Scan(s[1..], stack + [Closer(s[0])]))
    else if s[0] == stack[|stack| - 1] then Add(1, Scan(s[1..], stack[..|stack| - 1]))
    else Add(1, Scan(s[1..], stack))
  }

  /** Bytes before the next delimiter. */
  function ScalarLength(s: Data): (n: nat)
    ensures n <= |s|
  {
    if s == [] || Delimits(s[0]) then 0 else 1 + ScalarLength(s[1..])
  }

  /** Skipping a value once white space is skipped. */
  function SkipSolid(t: Data): (r: Option<nat>)
    ensures r.Some? ==> r.value <= |t|
  {
    if t == [] then None
    else if t[0] == QUOTE then
      match ParseString(t) case None => None case Some((_, n)) => Some(n)
    else if Opens(t[0]) then Add(1, Scan(t[1..], [Closer(t[0])]))
    else Some(ScalarLength(t))
  }

  /** `gd_tok_json_skip_value`: how many bytes it skips. */
  function SkipValue(s: Data): (r: Option<nat>)
    ensures r.Some? ==> r.value <= |s|
  {
    Add(SkipSpaces(s), SkipSolid(Trim(s)))
  }

  datatype Extracted = Found(value: Data) | NotFound | Malformed

  /** The member loop of `gd_tok_jsonl_extract_string`, behind an opening brace or a comma. */
  function ExtractMember(s: Data, field: Data): Extracted
    decreases |s|, 3
  {
    var t := Trim(s);
    if t != [] && t[0] == CLOSE_OBJECT then NotFound else ExtractKey(t, field)
  }

  /** At a key. */
  function ExtractKey(t: Data, field: Data): Extracted
    decreases |t|, 2
  {
    match ParseString(t)
    case None => Malformed
    case Some((key, n)) => ExtractValue(key, t[n..], field)
  }

  /** Behind a key. */
  function ExtractValue(key: Data, s: Data, field: Data): Extracted
    decreases |s|, 1
  {
    var u := Trim(s);
    if u == [] || u[0] != COLON then Malformed else AfterColon(key, Trim(u[1..]), field)
  }

  /** Behind the colon: the value is wanted, or it is skipped. */
  function AfterColon(key: Data, x: Data, field: Data): Extracted
    decreases |x|, 1
  {
    if key == field then FieldValue(x)
    else
      match SkipValue(x)
      case None => Malformed
      case Some(m) => ExtractNext(Trim(x[m..]), field)
  }

  /** The value of the wanted field has to be a string. */
  function FieldValue(x: Data): Extracted {
    match ParseString(x) case None => Malformed case Some((value, _)) => Found(value)
  }

  /** Behind a value. */
  function ExtractNext(y: Data, field: Data): Extracted
    decreases |y|, 0
  {
    if y == [] then Malformed
    else if y[0] == COMMA then ExtractMember(y[1..], field)
    else if y[0] == CLOSE_OBJECT then NotFound
    else Malformed
  }

  /** `gd_tok_jsonl_extract_string`. */
  function Extract(s: Data, field: Data): Extracted {
    var t := Trim(s);
    if t == [] || t[0] != OPEN_OBJECT then Malformed else ExtractMember(t[1..], field)
  }

  // ---------- well-formed text ----------

  /** A JSON text with its white space. */
  datatype Json =
    | JString(characters: seq<Character>)
    | JScalar(token: Data)
    | JArray(lead: Data, items: Items)
    | JObject(lead: Data, members: Members)

  datatype Items = NoItem | Item(before: Data, value: Json, after: Data, rest: Items)

  datatype Members =
    | NoMember
    | Member(before: Data, key: seq<Character>, afterKey: Data, beforeValue: Data, value: Json, after: Data,
      rest: Members)

  function Text(v: Json): Data
    decreases v
  {
    match v
    case JString(characters) => StringText(characters)
    case JScalar(token) => token
    case JArray(lead, items) => [OPEN_ARRAY] + (if items.NoItem? then lead else ItemsText(items)) + [CLOSE_ARRAY]
    case JObject(lead, members) => [OPEN_OBJECT] + MembersText(lead, members) + [CLOSE_OBJECT]
  }

  function ItemsText(items: Items): Data
    decreases items
  {
    match items
    case NoItem => []
    case Item(before, value, after, rest) =>
      before + Text(value) + after + (if rest.NoItem? then [] else [COMMA] + ItemsText(rest))
  }

  /** The text between the braces; `lead` is the white space of an empty object. */
  function MembersText(lead: Data, ms: Members): Data
    decreases ms, 1
  {
    if ms.NoMember? then lead
    else FirstMember(ms) + (if ms.rest.NoMember? then [] else [COMMA] + MembersText([], ms.rest))
  }

  /** The text of the first member, without the comma behind it. */
  function FirstMember(ms: Members): Data
    requires ms.Member?
    decreases ms, 0
  {
    ms.before + StringText(ms.key) + ms.afterKey + [COLON] + ms.beforeValue + Text(ms.value) + ms.after
  }

  /** Numbers and literal names contain none of the bytes that structure a text. */
  ghost predicate Plain(token: Data) {
    forall i :: 0 <= i < |token| ==>
      !IsSpace(token[i]) && !Delimits(token[i]) && !Opens(token[i]) && token[i] != QUOTE && token[i] != COLON
  }

  ghost predicate WellFormed(v: Json) {
    match v
    case JString(_) => true
    case JScalar(token) => token != [] && Plain(token)
    case JArray(lead, items) => Spaces(lead) && WellFormedItems(items)
    case JObject(lead, members) => Spaces(lead) && WellFormedMembers(members)
  }

  ghost predicate WellFormedItems(items: Items) {
    items.Item? ==>
      Spaces(items.before) && WellFormed(items.value) && Spaces(items.after)
      && WellFormedItems(items.rest)
  }

  ghost predicate WellFormedMembers(ms: Members) {
    ms.Member? ==>
      && Spaces(ms.before) && Spaces(ms.afterKey) && Spaces(ms.beforeValue) && Spaces(ms.after)
      && WellFormed(ms.value) && WellFormedMembers(ms.rest)
  }

  /** Nesting depth of containers. */
  function Depth(v: Json): nat {
    match v
    case JArray(_, items) => 1 + ItemsDepth(items)
    case JObject(_, members) => 1 + MembersDepth(members)
    case _ => 0
  }

  function ItemsDepth(items: Items): nat {
    if items.NoItem? then 0 else Larger(Depth(items.value), ItemsDepth(items.rest))
  }

  function MembersDepth(ms: Members): nat {
    if ms.NoMember? then 0 else Larger(Depth(ms.value), MembersDepth(ms.rest))
  }

  function Larger(a: nat, b: nat): nat { if a < b then b else a }

  // ---------- scanning well-formed text ----------

  /** Scanning `t` leaves the stack as it was: whatever follows, the scan passes over `t` and goes on. */
  ghost predicate Passes(t: Data, stack: Data) {
    forall rest: Data :: Scan(t + rest, stack) == Add(|t|, Scan(rest, stack))
  }

  /** Bytes that the scan steps over one by one. */
  ghost predicate Inert(t: Data) {
    forall i :: 0 <= i < |t| ==> t[i] != QUOTE && !Opens(t[i]) && t[i] != CLOSE_ARRAY && t[i] != CLOSE_OBJECT
  }

  ghost predicate GoodStack(stack: Data) {
    stack != [] && forall i :: 0 <= i < |stack| ==> stack[i] == CLOSE_ARRAY || stack[i] == CLOSE_OBJECT
  }

  lemma {:induction false} InertPasses(t: Data, stack: Data)
    requires Inert(t) && GoodStack(stack)
    ensures Passes(t, stack)
  {
    if t == [] {
      forall rest: Data
        ensures Scan(t + rest, stack) == Add(0, Scan(rest, stack))
      {
        assert t + rest == rest;
      }
    } else {
      InertPasses(t[1..], stack);
      forall rest: Data
        ensures Scan(t + rest, stack) == Add(|t|, Scan(rest, stack))
      {
        InertStep(t, stack, rest);
      }
    }
  }

  lemma {:induction false} InertStep(t: Data, stack: Data, rest: Data)
    requires t != [] && Inert(t) && GoodStack(stack) && Passes(t[1..], stack)
    ensures Scan(t + rest, stack) == Add(|t|, Scan(rest, stack))
  {
    ScanByte(t + rest, stack);
    BehindFirst(t, rest);
    assert Scan(t[1..] + rest, stack) == Add(|t| - 1, Scan(rest, stack));
  }

  lemma {:induction false} ScanByte(s: Data, stack: Data)
    requires s != [] && Inert([s[0]]) && GoodStack(stack)
    ensures Scan(s, stack) == Add(1, Scan(s[1..], stack))
  {
    assert [s[0]][0] == s[0];
  }

  lemma {:induction false} BehindFirst(t: Data, rest: Data)
    requires t != []
    ensures (t + rest)[0] == t[0] && (t + rest)[1..] == t[1..] + rest
  {
  }

  lemma {:induction false} StringPasses(ps: seq<Character>, stack: Data)
    requires GoodStack(stack)
    ensures Passes(StringText(ps), stack)
  {
    forall rest: Data
      ensures Scan(StringText(ps) + rest, stack) == Add(|StringText(ps)|, Scan(rest, stack))
    {
      ParseStringComplete(ps, rest);
      assert (StringText(ps) + rest)[|StringText(ps)|..] == rest;
    }
  }

  lemma {:induction false} BothPass(a: Data, b: Data, stack: Data)
    requires Passes(a, stack) && Passes(b, stack)
    ensures Passes(a + b, stack)
  {
    forall rest: Data
      ensures Scan(a + b + rest, stack) == Add(|a + b|, Scan(rest, stack))
    {
      TwoPass(a, b, stack, rest);
    }
  }

  lemma {:induction false} TwoPass(a: Data, b: Data, stack: Data, rest: Data)
    requires Passes(a, stack) && Passes(b, stack)
    ensures Scan(a + b + rest, stack) == Add(|a + b|, Scan(rest, stack))
  {
    var t := b + rest;
    Assoc(a, b, rest);
    assert Scan(a + t, stack) == Add(|a|, Scan(t, stack));
    assert Scan(b + rest, stack) == Add(|b|, Scan(rest, stack));
  }

  /** A bracketed text passes when its inside passes one level deeper. */
  lemma {:induction false} BracketsPass(open: Byte, inside: Data, stack: Data)
    requires GoodStack(stack) && Opens(open) && |stack| < MAX_DEPTH && Passes(inside, stack + [Closer(open)])
    ensures Passes([open] + inside + [Closer(open)], stack)
  {
    forall rest: Data
      ensures Scan([open] + inside + [Closer(open)] + rest, stack) == Add(|inside| + 2, Scan(rest, stack))
    {
      Bracketed(open, inside, stack, rest);
    }
  }

  lemma {:induction false} Bracketed(open: Byte, inside: Data, stack: Data, rest: Data)
    requires stack != [] && Opens(open) && |stack| < MAX_DEPTH && Passes(inside, stack + [Closer(open)])
    ensures Scan([open] + inside + [Closer(open)] + rest, stack) == Add(|inside| + 2, Scan(rest, stack))
  {
    var s := [open] + inside + [Closer(open)] + rest;
    assert s[1..] == inside + ([Closer(open)] + rest);
    Closing(Closer(open), stack, rest);
    assert Scan(inside + ([Closer(open)] + rest), stack + [Closer(open)]) ==
           Add(|inside|, Scan([Closer(open)] + rest, stack + [Closer(open)]));
  }

  lemma {:induction false} Closing(close: Byte, stack: Data, rest: Data)
    requires close == CLOSE_ARRAY || close == CLOSE_OBJECT
    ensures Scan([close] + rest, stack + [close]) == Add(1, Scan(rest, stack))
  {
    assert ([close] + rest)[1..] == rest && (stack + [close])[..|stack|] == stack;
  }

  lemma {:induction false} SpacesInert(s: Data)
    requires Spaces(s)
    ensures Inert(s)
  {
  }

  /** Scanning a well-formed value brings the scan back to where it was. */
  lemma {:induction false} ValuePasses(v: Json, stack: Data)
    requires WellFormed(v) && GoodStack(stack) && |stack| + Depth(v) <= MAX_DEPTH
    ensures Passes(Text(v), stack)
    decreases v, 1
  {
    match v
    case JString(ps) => StringPasses(ps, stack);
    case JScalar(token) => InertPasses(token, stack);
    case JArray(lead, items) =>
      var deeper := stack + [CLOSE_ARRAY];
      if items.NoItem? {
        SpacesInert(lead);
        InertPasses(lead, deeper);
      } else {
        ItemsPass(items, deeper);
      }
      BracketsPass(OPEN_ARRAY, if items.NoItem? then lead else ItemsText(items), stack);
    case JObject(lead, members) =>
      var deeper := stack + [CLOSE_OBJECT];
      MembersPass(lead, members, deeper);
      BracketsPass(OPEN_OBJECT, MembersText(lead, members), stack);
  }

  lemma {:induction false} SpacesPass(s: Data, stack: Data)
    requires Spaces(s) && GoodStack(stack)
    ensures Passes(s, stack)
  {
    SpacesInert(s);
    InertPasses(s, stack);
  }

  lemma {:induction false} ItemsPass(items: Items, stack: Data)
    requires WellFormedItems(items) && GoodStack(stack) && |stack| + ItemsDepth(items) <= MAX_DEPTH
    ensures Passes(ItemsText(items), stack)
    decreases items, 0
  {
    if items.NoItem? {
      InertPasses([], stack);
    } else {
      SpacesPass(items.before, stack);
      ValuePasses(items.value, stack);
      SpacesPass(items.after, stack);
      BothPass(items.before, Text(items.value), stack);
      BothPass(items.before + Text(items.value), items.after, stack);
      InertPasses([COMMA], stack);
      ItemsPass(items.rest, stack);
      BothPass([COMMA], ItemsText(items.rest), stack);
      InertPasses([], stack);
      BothPass(items.before + Text(items.value) + items.after,
               if items.rest.NoItem? then [] else [COMMA] + ItemsText(items.rest), stack);
    }
  }

  lemma {:induction false} MembersPass(lead: Data, ms: Members, stack: Data)
    requires Spaces(lead) && WellFormedMembers(ms) && GoodStack(stack) && |stack| + MembersDepth(ms) <= MAX_DEPTH
    ensures Passes(MembersText(lead, ms), stack)
    decreases ms, 0
  {
    if ms.NoMember? {
      SpacesPass(lead, stack);
    } else {
      MemberPasses(ms, stack);
      InertPasses([COMMA], stack);
      MembersPass([], ms.rest, stack);
      BothPass([COMMA], MembersText([], ms.rest), stack);
      InertPasses([], stack);
      BothPass(FirstMember(ms), if ms.rest.NoMember? then [] else [COMMA] + MembersText([], ms.rest), stack);
    }
  }

  lemma {:induction false} MemberPasses(ms: Members, stack: Data)
    requires ms.Member? && WellFormedMembers(ms) && GoodStack(stack) && |stack| + MembersDepth(ms) <= MAX_DEPTH
    ensures Passes(FirstMember(ms), stack)
    decreases ms.value, 2
  {
    SpacesPass(ms.before, stack);
    StringPasses(ms.key, stack);
    SpacesPass(ms.afterKey, stack);
    InertPasses([COLON], stack);
    SpacesPass(ms.beforeValue, stack);
    ValuePasses(ms.value, stack);
    SpacesPass(ms.after, stack);
    BothPass(ms.before, StringText(ms.key), stack);
    BothPass(ms.before + StringText(ms.key), ms.afterKey, stack);
    BothPass(ms.before + StringText(ms.key) + ms.afterKey, [COLON], stack);
    BothPass(ms.before + StringText(ms.key) + ms.afterKey + [COLON], ms.beforeValue, stack);
    BothPass(ms.before + StringText(ms.key) + ms.afterKey + [COLON] + ms.beforeValue, Text(ms.value), stack);
    BothPass(ms.before + StringText(ms.key) + ms.afterKey + [COLON] + ms.beforeValue + Text(ms.value), ms.after, stack);
  }
}
