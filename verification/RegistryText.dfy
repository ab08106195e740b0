/** The generated header `op_kind.h` as text: how `tools/gen_ops.c` writes it and reads it back. */
module RegistryText {
  import opened Seqs
  import opened Decimal
  import opened Ctype

  const NAME_MAX: nat := 96
  const LINE_MAX: nat := 512
  const UINT32_MAX: nat := 0xFFFF_FFFF
  const ULONG_MAX: nat := 0xFFFF_FFFF_FFFF_FFFF

  // ---------- names ----------

  function UpperChar(c: char): char { if IsLower(c) then c - ' ' else c }

  function LowerChar(c: char): char { if IsUpper(c) then c + ' ' else c }

  /** `gd_upper_from_name`. */
  function ToUpper(s: string): (r: string)
    ensures |r| == |s| && forall i :: 0 <= i < |s| ==> r[i] == UpperChar(s[i])
  {
    seq(|s|, i requires 0 <= i < |s| => UpperChar(s[i]))
  }

  /** `gd_lower_from_upper`. */
  function ToLower(s: string): (r: string)
    ensures |r| == |s| && forall i :: 0 <= i < |s| ==> r[i] == LowerChar(s[i])
  {
    seq(|s|, i requires 0 <= i < |s| => LowerChar(s[i]))
  }

  predicate NameChar(c: char) { IsLower(c) || IsDigit(c) || c == '_' }

  /** What an operation may be called: lower-case words and digits joined by single underscores. */
  predicate ValidName(s: string) {
    && 0 < |s| < NAME_MAX && IsLower(s[0])
    && (forall i :: 0 <= i < |s| ==> NameChar(s[i]))
    && (forall i :: 0 <= i < |s| && s[i] == '_' ==> i + 1 < |s| && !Underscore(s, i + 1))
  }

  predicate Underscore(s: string, i: int) { 0 <= i < |s| && s[i] == '_' }

  /** `gd_valid_op_name`. */
  method ValidOpName(name: string) returns (ok: bool)
    ensures ok <==> ValidName(name)
  {
    var prevUnderscore := false;
    if name == "" || !IsLower(name[0]) {
      return false;
    }
    for i := 0 to |name|
      invariant forall j :: 0 <= j < i ==> NameChar(name[j])
      invariant forall j :: 0 <= j < i - 1 && name[j] == '_' ==> j + 1 < |name| && !Underscore(name, j + 1)
      invariant prevUnderscore <==> Underscore(name, i - 1)
      invariant prevUnderscore ==> i < |name|
    {
      var c := name[i];
      if IsLower(c) || IsDigit(c) {
        assert !Underscore(name, i);
        prevUnderscore := false;
      } else if c == '_' {
        assert Underscore(name, i);
        if prevUnderscore || i + 1 == |name| {
          assert i > 0 && prevUnderscore ==> name[i - 1] == '_' && Underscore(name, (i - 1) + 1);
          return false;
        }
        prevUnderscore := true;
      } else {
        return false;
      }
    }
    return |name| < NAME_MAX;
  }

  lemma {:induction false} CaseRoundTrip(s: string)
    requires forall i :: 0 <= i < |s| ==> NameChar(s[i])
    ensures ToLower(ToUpper(s)) == s
    ensures forall i :: 0 <= i < |s| ==> TokenChar(ToUpper(s)[i])
  {
    forall i | 0 <= i < |s|
      ensures ToLower(ToUpper(s))[i] == s[i] && TokenChar(ToUpper(s)[i])
    {
      assert NameChar(s[i]);
    }
  }

  // ---------- reading ----------

  /** How much one `fgets` takes: up to a newline, or `room` characters. */
  function ChunkLen(s: string, room: nat): (n: nat)
    ensures n <= |s| && n <= room && (s != [] && room > 0 ==> n > 0)
  {
    if s == [] || room == 0 then 0 else if s[0] == '\n' then 1 else 1 + ChunkLen(s[1..], room - 1)
  }

  predicate TokenChar(c: char) { IsUpper(c) || IsDigit(c) || c == '_' }

  /** Length of the token at the front, at most `room`. */
  function TokenLen(s: string, room: nat): (n: nat)
    ensures n <= |s| && n <= room
  {
    if s == [] || room == 0 || !TokenChar(s[0]) then 0 else 1 + TokenLen(s[1..], room - 1)
  }

  const MARK: string := "GD_OP_"

  /** What follows the first `GD_OP_`. */
  function AfterMark(s: string): (r: Option<string>)
    ensures r.Some? ==> |r.value| + 6 <= |s|
  {
    if |s| < 6 then None else if s[..6] == MARK then Some(s[6..]) else AfterMark(s[1..])
  }

  /** What follows the first `c`. */
  function After(s: string, c: char): Option<string> {
    if s == [] then None else if s[0] == c then Some(s[1..]) else After(s[1..], c)
  }

  function SkipSpace(s: string): string {
    if s != [] && IsSpace(s[0]) then SkipSpace(s[1..]) else s
  }

  function DigitRun(s: string): (n: nat)
    ensures n <= |s| && AllDigits(s[..n])
  {
    if s == [] || !IsDigit(s[0]) then 0
    else
      var n := 1 + DigitRun(s[1..]);
      assert AllDigits(s[..n]) by { assert s[..n] == [s[0]] + s[1..][..n - 1]; }
      n
  }

  /** `strtoul` in base 10 where `unsigned long` has 64 bits. */
  function Strtoul(s: string): nat {
    var t := SkipSpace(s);
    var u := if t != [] && (t[0] == '+' || t[0] == '-') then t[1..] else t;
    var v := Value(u[..DigitRun(u)]);
    if v > ULONG_MAX then ULONG_MAX
    else if t != [] && t[0] == '-' && v > 0 then ULONG_MAX + 1 - v
    else v
  }

  /** White space, an optional sign and digits, whatever follows them: the number, cut off at the largest
      `unsigned long`; a negative one wraps. */
  lemma {:induction false} StrtoulExact(space: string, sign: string, digits: string, rest: string)
    requires AllSpace(space) && (sign == "" || sign == "+" || sign == "-")
    requires digits != [] && AllDigits(digits) && (rest == [] || !IsDigit(rest[0]))
    ensures var v, r := Value(digits), Strtoul(space + (sign + (digits + rest)));
            && (v > ULONG_MAX ==> r == ULONG_MAX)
            && (v <= ULONG_MAX && sign != "-" ==> r == v)
            && (v <= ULONG_MAX && sign == "-" ==> r == (if v == 0 then 0 else ULONG_MAX + 1 - v))
  {
    SpaceSkipped(space, sign + (digits + rest));
    RunIs(digits, rest);
    assert (digits + rest)[..|digits|] == digits;
    if sign == "" {
      assert sign + (digits + rest) == digits + rest;
    } else {
      assert (sign + (digits + rest))[1..] == digits + rest;
    }
  }

  lemma {:induction false} SpaceSkipped(space: string, s: string)
    requires AllSpace(space) && s != [] && !IsSpace(s[0])
    ensures SkipSpace(space + s) == s
  {
    if space == [] {
      assert space + s == s;
    } else {
      assert (space + s)[1..] == space[1..] + s;
      SpaceSkipped(space[1..], s);
    }
  }

  lemma {:induction false} RunIs(digits: string, rest: string)
    requires AllDigits(digits) && (rest == [] || !IsDigit(rest[0]))
    ensures DigitRun(digits + rest) == |digits|
  {
    if digits == [] {
      assert digits + rest == rest;
    } else {
      assert (digits + rest)[1..] == digits[1..] + rest;
      RunIs(digits[1..], rest);
    }
  }

  /** The id behind the next `=`; 0 when there is none or it is no positive 32-bit number. */
  function IdAfter(s: string): nat {
    match After(s, '=')
    case None => 0
    case Some(t) => if Strtoul(t) <= UINT32_MAX then Strtoul(t) else 0
  }

  datatype Entry = Entry(name: string, id: nat)

  /** The token at the front, with the id behind it. */
  function TokenEntry(q: string): seq<Entry> {
    var n := TokenLen(q, NAME_MAX - 1);
    if n > 0 then [Entry(ToLower(q[..n]), IdAfter(q[n..]))] else []
  }

  /** What one line of the header says about ids, in order. */
  function LineEntries(s: string): seq<Entry>
    decreases |s|
  {
    match AfterMark(s)
    case None => []
    case Some(q) => TokenEntry(q) + LineEntries(q[TokenLen(q, NAME_MAX - 1)..])
  }

  function TextEntries(s: string): seq<Entry>
    decreases |s|, 1
  {
    if s == [] then [] else ChunkEntries(s)
  }

  function ChunkEntries(s: string): seq<Entry>
    requires s != []
    decreases |s|, 0
  {
    var n := ChunkLen(s, LINE_MAX - 1);
    LineEntries(s[..n]) + TextEntries(s[n..])
  }

  // ---------- writing ----------

  function OpLine(name: string, id: nat): string {
    "    GD_OP_" + ToUpper(name) + " = " + Digits(id) + ",\n"
  }

  function OpLines(names: seq<string>): (r: seq<string>)
    ensures |r| == |names| && forall i :: 0 <= i < |r| ==> r[i] == OpLine(names[i], i + 1)
  {
    seq(|names|, i requires 0 <= i < |names| => OpLine(names[i], i + 1))
  }

  const OPENING: seq<string> := [
    "#ifndef GD_OP_KIND_H\n",
    "#define GD_OP_KIND_H\n",
    "\n",
    "/* @generated by tools/" + "gen_ops.c; do not edit. */\n",
    "typedef enum gd_op_kind {\n",
    "    GD_OP_INVALID = 0,\n"]

  const CLOSING: seq<string> := [
    "} gd_op_kind;\n",
    "\n",
    "#endif /* GD_OP_KIND_H */\n"]

  /** The header for operations `names[0]`, `names[1]`, ... with ids 1, 2, ... */
  function Header(names: seq<string>): string {
    HeaderAround(OPENING, names, CLOSING)
  }

  function HeaderAround(opening: seq<string>, names: seq<string>, closing: seq<string>): string {
    Flatten(opening) + Flatten(OpLines(names)) + OpLine("count", |names| + 1) + Flatten(closing)
  }

  // ---------- one line ----------

  ghost predicate Without(s: string, c: char) {
    forall i :: 0 <= i < |s| ==> s[i] != c
  }

  lemma {:induction false} NoMark(s: string)
    requires Without(s, 'G')
    ensures AfterMark(s) == None
  {
    if |s| >= 6 {
      assert s[..6][0] == s[0] != MARK[0];
      NoMark(s[1..]);
    }
  }

  lemma {:induction false} FirstMark(a: string, rest: string)
    requires Without(a, 'G')
    ensures AfterMark(a + MARK + rest) == Some(rest)
  {
    var s := a + MARK + rest;
    if a == [] {
      assert s[..6] == MARK && s[6..] == rest;
    } else {
      assert s[..6][0] == a[0] != MARK[0];
      assert s[1..] == a[1..] + MARK + rest;
      FirstMark(a[1..], rest);
    }
  }

  lemma {:induction false} WholeToken(token: string, rest: string, room: nat)
    requires |token| <= room && (forall i :: 0 <= i < |token| ==> TokenChar(token[i]))
    requires rest != [] && !TokenChar(rest[0])
    ensures TokenLen(token + rest, room) == |token|
  {
    if token != [] {
      assert (token + rest)[1..] == token[1..] + rest;
      WholeToken(token[1..], rest, room - 1);
    } else {
      assert token + rest == rest;
    }
  }

  /** A line with one mark. */
  lemma {:induction false} OneEntry(a: string, token: string, rest: string)
    requires Without(a, 'G') && Without(rest, 'G')
    requires 0 < |token| < NAME_MAX && (forall i :: 0 <= i < |token| ==> TokenChar(token[i]))
    requires rest != [] && !TokenChar(rest[0])
    ensures LineEntries(a + MARK + (token + rest)) == [Entry(ToLower(token), IdAfter(rest))]
  {
    FirstMark(a, token + rest);
    WholeToken(token, rest, NAME_MAX - 1);
    assert (token + rest)[..|token|] == token && (token + rest)[|token|..] == rest;
    NoMark(rest);
  }

  lemma {:induction false} AfterFirst(a: string, c: char, rest: string)
    requires Without(a, c)
    ensures After(a + [c] + rest, c) == Some(rest)
  {
    var s := a + [c] + rest;
    if a == [] {
      assert s[1..] == rest;
    } else {
      assert s[0] == a[0] && s[1..] == a[1..] + [c] + rest;
      AfterFirst(a[1..], c, rest);
    }
  }

  lemma {:induction false} NoAfter(s: string, c: char)
    requires Without(s, c)
    ensures After(s, c) == None
  {
    if s != [] {
      NoAfter(s[1..], c);
    }
  }

  lemma {:induction false} DigitRunIs(d: string, rest: string)
    requires AllDigits(d) && (rest == [] || !IsDigit(rest[0]))
    ensures DigitRun(d + rest) == |d|
  {
    if d == [] {
      assert d + rest == rest;
    } else {
      assert (d + rest)[1..] == d[1..] + rest;
      DigitRunIs(d[1..], rest);
    }
  }

  /** The id of a generated line reads back. */
  lemma {:induction false} IdReadsBack(id: nat)
    requires id <= UINT32_MAX
    ensures IdAfter(" = " + Digits(id) + ",\n") == id
  {
    var d, rest := Digits(id), Digits(id) + ",\n";
    DigitsRoundTrip(id);
    assert " = " + Digits(id) + ",\n" == " " + ['='] + (" " + rest);
    AfterFirst(" ", '=', " " + rest);
    assert (" " + rest)[1..] == rest && rest[0] == d[0];
    assert '0' <= d[0] <= '9';
    assert SkipSpace(" " + rest) == rest;
    DigitRunIs(d, ",\n");
    assert rest[..|d|] == d;
  }

  lemma {:induction false} DigitsWithout(n: nat, c: char)
    requires !IsDigit(c)
    ensures Without(Digits(n), c)
  {
    DigitsRoundTrip(n);
  }

  /** A generated line says what it was written for. */
  lemma {:induction false} OpLineEntries(name: string, id: nat)
    requires ValidName(name) && id <= UINT32_MAX
    ensures LineEntries(OpLine(name, id)) == [Entry(name, id)]
  {
    var token, rest := ToUpper(name), " = " + Digits(id) + ",\n";
    CaseRoundTrip(name);
    DigitsWithout(id, 'G');
    assert OpLine(name, id) == "    " + MARK + (token + rest);
    OneEntry("    ", token, rest);
    IdReadsBack(id);
  }
}
