/** The flat configuration reader (`examples/common/gd_example_config.c`): lines, keys and the document. */
module Config {
  import opened Seqs
  import opened Ctype
  import opened ConfigScan
  import opened ConfigScalar

  // ---------- keys and markers ----------

  predicate KeyChar(c: char) { IsAlnum(c) || c == '_' || c == '-' || c == '.' }

  predicate ValidKey(s: string) {
    s != [] && forall i :: 0 <= i < |s| ==> KeyChar(s[i])
  }

  /** `validate_key`. */
  method ValidateKey(key: string) returns (ok: bool)
    ensures ok <==> ValidKey(key)
  {
    if key == [] {
      return false;
    }
    for i := 0 to |key|
      invariant forall j :: 0 <= j < i ==> KeyChar(key[j])
    {
      if !KeyChar(key[i]) {
        return false;
      }
    }
    ok := true;
  }

  /** `marker` and nothing but white space behind it. */
  predicate IsMarker(t: string, marker: string) {
    |marker| <= |t| && t[..|marker|] == marker && AllSpace(t[|marker|..])
  }

  /** `line_is_marker`. */
  method LineIsMarker(t: string, marker: string) returns (r: bool)
    ensures r <==> IsMarker(t, marker)
  {
    if |t| < |marker| || t[..|marker|] != marker {
      return false;
    }
    r := TrailingIsEmpty(t[|marker|..]);
  }

  // ---------- one line ----------

  datatype LineResult = Skip | Pair(key: string, value: string) | Bad

  function Strip(line: string): string {
    match FindStop(line, Outside, '#')
    case None => line
    case Some(k) => line[..k]
  }

  /** The line without its comment and the white space around the rest. */
  function ReadContent(t: string): LineResult {
    if t == [] || IsMarker(t, "---") || IsMarker(t, "...") then Skip
    else
      match FindStop(t, Outside, ':')
      case None => Bad
      case Some(k) => ReadPair(Trim(t[..k]), t[k + 1..])
  }

  function ReadPair(key: string, valueText: string): LineResult {
    if !ValidKey(key) then Bad
    else
      match ParseScalar(valueText)
      case None => Bad
      case Some(v) => Pair(key, v)
  }

  function ReadLine(line: string): LineResult {
    ReadContent(Trim(Strip(line)))
  }

  // ---------- the document ----------

  datatype Entry = Entry(key: string, value: string, line: nat)

  predicate HasKey(doc: seq<Entry>, key: string) {
    exists i :: 0 <= i < |doc| && doc[i].key == key
  }

  /** What one line makes of the document; `None` stands for a parse error. */
  function AddLine(doc: seq<Entry>, r: LineResult, n: nat): Option<seq<Entry>> {
    match r
    case Skip => Some(doc)
    case Bad => None
    case Pair(key, value) => if HasKey(doc, key) then None else Some(doc + [Entry(key, value, n)])
  }

  /** How far the line at the front goes: to its newline or to the end. */
  function LineLen(s: string): (n: nat)
    ensures n <= |s| && (n < |s| ==> s[n] == '\n')
  {
    if s == [] || s[0] == '\n' then 0 else 1 + LineLen(s[1..])
  }

  /** Without a carriage return at the end. */
  function ChopReturn(line: string): string {
    if line != [] && line[|line| - 1] == '\r' then line[..|line| - 1] else line
  }

  function LoadFrom(s: string, doc: seq<Entry>, n: nat): Option<seq<Entry>>
    decreases |s|, 1
  {
    if s == [] then Some(doc) else LoadLine(s, doc, n)
  }

  /** The line at the front, then the others. */
  function LoadLine(s: string, doc: seq<Entry>, n: nat): Option<seq<Entry>>
    requires s != []
    decreases |s|, 0
  {
    var len := LineLen(s);
    match AddLine(doc, ReadLine(ChopReturn(s[..len])), n)
    case None => None
    case Some(next) => if len == |s| then Some(next) else LoadFrom(s[len + 1..], next, n + 1)
  }

  /** A C string ends at its first NUL. */
  function CString(s: string): (r: string)
    ensures '\0' !in r && ('\0' !in s ==> r == s)
  {
    if s == [] || s[0] == '\0' then [] else [s[0]] + CString(s[1..])
  }

  /** Loading a file: its text up to the first NUL. */
  function LoadFile(file: string): Option<seq<Entry>> {
    LoadFrom(CString(file), [], 1)
  }

  class Doc {
    var entries: seq<Entry>

    constructor ()
      ensures entries == []
    {
      entries := [];
    }

    /** `gd_example_config_find`: the entry with this key, -1 when there is none. */
    method Find(key: string) returns (k: int)
      ensures -1 <= k < |entries| && (k >= 0 ==> entries[k].key == key)
      ensures k >= 0 <==> HasKey(entries, key)
    {
      for i := 0 to |entries|
        invariant forall j :: 0 <= j < i ==> entries[j].key != key
      {
        if entries[i].key == key {
          return i;
        }
      }
      k := -1;
    }

    /** `add_entry`. */
    method AddEntry(key: string, value: string, line: nat) returns (ok: bool)
      modifies `entries
      ensures ok <==> !HasKey(old(entries), key)
      ensures entries == if ok then old(entries) + [Entry(key, value, line)] else old(entries)
    {
      var k := Find(key);
      if k >= 0 {
        return false;
      }
      entries := entries + [Entry(key, value, line)];
      ok := true;
    }

    /** The end of `parse_line`: a key and the text of its value. */
    method ParsePair(key: string, valueText: string, lineNo: nat) returns (ok: bool)
      modifies `entries
      ensures var next := AddLine(old(entries), ReadPair(key, valueText), lineNo);
              ok == next.Some? && entries == if ok then next.value else old(entries)
    {
      var valid := ValidateKey(key);
      if !valid {
        return false;
      }
      var value := RunScalar(valueText);
      if value.None? {
        return false;
      }
      ok := AddEntry(key, value.value, lineNo);
    }

    /** `parse_line` on a line without its comment and the white space around the rest. */
    method ParseContent(trimmed: string, lineNo: nat) returns (ok: bool)
      modifies `entries
      ensures var next := AddLine(old(entries), ReadContent(trimmed), lineNo);
              ok == next.Some? && entries == if ok then next.value else old(entries)
    {
      var dashes := LineIsMarker(trimmed, "---");
      var dots := LineIsMarker(trimmed, "...");
      if trimmed == [] || dashes || dots {
        return true;
      }
      var colon := Scan(trimmed, ':');
      if colon == |trimmed| {
        return false;
      }
      ok := ParsePair(Trim(trimmed[..colon]), trimmed[colon + 1..], lineNo);
    }

    /** `parse_line`. */
    method ParseLine(line: string, lineNo: nat) returns (ok: bool)
      modifies `entries
      ensures var next := AddLine(old(entries), ReadLine(line), lineNo);
              ok == next.Some? && entries == if ok then next.value else old(entries)
    {
      var cut := Scan(line, '#');
      assert line[..cut] == Strip(line);
      ok := ParseContent(Trim(line[..cut]), lineNo);
    }

    /** `load_yaml_file`: the line loop over the buffer, a C string with the bytes of the file. */
    method Load(file: string) returns (ok: bool)
      requires entries == []
      modifies `entries
      ensures ok <==> LoadFile(file).Some?
      ensures ok ==> entries == LoadFile(file).value
      ensures !ok ==> entries == []
    {
      var text := CString(file);
      var rest := text;
      var lineNo := 1;
      while rest != ""
        invariant LoadFrom(rest, entries, lineNo) == LoadFrom(text, [], 1)
        decreases |rest|
      {
        var len := LineLen(rest);
        assert LoadFrom(rest, entries, lineNo) == LoadLine(rest, entries, lineNo);
        ok := ParseLine(ChopReturn(rest[..len]), lineNo);
        if !ok {
          entries := [];
          return;
        }
        if len == |rest| {
          return;
        }
        rest := rest[len + 1..];
        lineNo := lineNo + 1;
      }
      ok := true;
    }
  }
}
