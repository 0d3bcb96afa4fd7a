// JSON text (RFC 8259) as nt-be reads and writes it with `serde_json`: objects are kept
// sorted by key with the last duplicate winning, nesting is limited to 127 levels, and
// only `"`, `\` and control characters are escaped on output.
module Json {
  import opened Wrappers

  datatype Json =
    | Null
    | Bool(b: bool)
    | Num(literal: string)
    | Str(text: string)
    | Arr(items: seq<Json>)
    | Obj(entries: seq<Entry>)

  datatype Entry = Entry(key: string, value: Json)

  const MAX_DEPTH: nat := 128

  // How a number literal is printed back; None when it is out of range.
  type NumberFormat = string -> Option<string>

  // ----- Key order of `serde_json::Map` -----

  predicate StrLess(a: string, b: string) {
    if b == "" then false
    else if a == "" then true
    else a[0] < b[0] || (a[0] == b[0] && StrLess(a[1..], b[1..]))
  }

  // Insert `e`, replacing an entry that already has its key.
  function Put(entries: seq<Entry>, e: Entry): seq<Entry> {
    if entries == [] then [e]
    else if entries[0].key == e.key then [e] + entries[1..]
    else if StrLess(e.key, entries[0].key) then [e] + entries
    else [entries[0]] + Put(entries[1..], e)
  }

  function BuildMap(members: seq<Entry>): seq<Entry> {
    if members == [] then []
    else Put(BuildMap(members[..|members| - 1]), members[|members| - 1])
  }

  // ----- Printing -----

  function HexDigit(n: nat): char
    requires n < 16
  {
    if n < 10 then '0' + n as char else 'a' + (n - 10) as char
  }

  function EscapeChar(c: char): string {
    if c == '"' then "\\\""
    else if c == '\\' then "\\\\"
    else if c == 8 as char then "\\b"
    else if c == 12 as char then "\\f"
    else if c == '\n' then "\\n"
    else if c == '\r' then "\\r"
    else if c == '\t' then "\\t"
    else if c < 32 as char then "\\u00" + [HexDigit(c as nat / 16), HexDigit(c as nat % 16)]
    else [c]
  }

  // The characters of a string literal followed by its closing quote.
  function Quoted(s: string): string {
    if s == "" then "\"" else EscapeChar(s[0]) + Quoted(s[1..])
  }

  function Print(v: Json): string {
    match v
    case Null => "null"
    case Bool(b) => if b then "true" else "false"
    case Num(literal) => literal
    case Str(text) => "\"" + Quoted(text)
    case Arr(items) => "[" + PrintItems(items)
    case Obj(entries) => "{" + PrintEntries(entries)
  }

  function PrintItems(items: seq<Json>): string {
    if items == [] then "]"
    else if |items| == 1 then Print(items[0]) + "]"
    else Print(items[0]) + "," + PrintItems(items[1..])
  }

  function PrintEntry(e: Entry): string {
    "\"" + Quoted(e.key) + ":" + Print(e.value)
  }

  function PrintEntries(entries: seq<Entry>): string {
    if entries == [] then "}"
    else if |entries| == 1 then PrintEntry(entries[0]) + "}"
    else PrintEntry(entries[0]) + "," + PrintEntries(entries[1..])
  }

  // ----- Parsing -----

  datatype Parsed<+T> = Fail | Done(value: T, rest: string)

  function SkipWs(s: string): (r: string)
    ensures |r| <= |s|
  {
    if s != "" && s[0] in " \n\t\r" then SkipWs(s[1..]) else s
  }

  predicate IsDigit(c: char) { '0' <= c <= '9' }

  function Digits(s: string): (n: nat)
    ensures n <= |s|
  {
    if s != "" && IsDigit(s[0]) then 1 + Digits(s[1..]) else 0
  }

  // Length of the integer, fraction and exponent parts at the front of `s`.
  function IntLen(s: string): (r: Option<nat>)
    ensures r.Some? ==> r.value <= |s|
  {
    var sign := if s != "" && s[0] == '-' then 1 else 0;
    var n := Digits(s[sign..]);
    if n == 0 || (s[sign] == '0' && n > 1) then None else Some(sign + n)
  }

  function FracLen(s: string): (r: Option<nat>)
    ensures r.Some? ==> r.value <= |s|
  {
    if s == "" || s[0] != '.' then Some(0)
    else
      var n := Digits(s[1..]);
      if n == 0 then None else Some(1 + n)
  }

  function ExpLen(s: string): (r: Option<nat>)
    ensures r.Some? ==> r.value <= |s|
  {
    if s == "" || (s[0] != 'e' && s[0] != 'E') then Some(0)
    else
      var sign := if |s| > 1 && (s[1] == '+' || s[1] == '-') then 1 else 0;
      var n := Digits(s[1 + sign..]);
      if n == 0 then None else Some(1 + sign + n)
  }

  function TailLen(s: string): (r: Option<nat>)
    ensures r.Some? ==> r.value <= |s|
  {
    match FracLen(s)
    case None => None
    case Some(f) =>
      match ExpLen(s[f..])
      case None => None
      case Some(e) => Some(f + e)
  }

  function ScanNumber(s: string): (r: Option<nat>)
    ensures r.Some? ==> 0 < r.value <= |s|
  {
    match IntLen(s)
    case None => None
    case Some(i) =>
      match TailLen(s[i..])
      case None => None
      case Some(n) => Some(i + n)
  }

  function HexValue(c: char): Option<nat> {
    if '0' <= c <= '9' then Some(c as nat - '0' as nat)
    else if 'a' <= c <= 'f' then Some(c as nat - 'a' as nat + 10)
    else if 'A' <= c <= 'F' then Some(c as nat - 'A' as nat + 10)
    else None
  }

  function Hex4(s: string): (r: Option<nat>)
    ensures r.Some? ==> |s| >= 4 && r.value < 0x1_0000
  {
    if |s| < 4 then None
    else
      var a, b, c, d := HexValue(s[0]), HexValue(s[1]), HexValue(s[2]), HexValue(s[3]);
      if a.None? || b.None? || c.None? || d.None? then None
      else Some(((a.value * 16 + b.value) * 16 + c.value) * 16 + d.value)
  }

  // The escape whose backslash has been read; a lone surrogate is an error.
  function Unescape(s: string): (r: Parsed<char>)
    ensures r.Done? ==> |r.rest| < |s|
  {
    if s == "" then Fail
    else if s[0] == '"' || s[0] == '\\' || s[0] == '/' then Done(s[0], s[1..])
    else if s[0] == 'b' then Done(8 as char, s[1..])
    else if s[0] == 'f' then Done(12 as char, s[1..])
    else if s[0] == 'n' then Done('\n', s[1..])
    else if s[0] == 'r' then Done('\r', s[1..])
    else if s[0] == 't' then Done('\t', s[1..])
    else if s[0] != 'u' then Fail
    else match Hex4(s[1..])
      case None => Fail
      case Some(h) =>
        if h < 0xD800 || 0xE000 <= h then Done(h as char, s[5..])
        else if 0xDC00 <= h || |s| < 7 || s[5] != '\\' || s[6] != 'u' then Fail
        else match Hex4(s[7..])
          case None => Fail
          case Some(l) =>
            if l < 0xDC00 || 0xE000 <= l then Fail
            else Done((0x1_0000 + (h - 0xD800) * 0x400 + (l - 0xDC00)) as char, s[11..])
  }

  // The rest of a string literal whose opening quote has been read.
  function ParseQuoted(s: string): (r: Parsed<string>)
    ensures r.Done? ==> |r.rest| < |s|
    decreases |s|
  {
    if s == "" || s[0] < 32 as char then Fail
    else if s[0] == '"' then Done("", s[1..])
    else
      var first := if s[0] == '\\' then Unescape(s[1..]) else Done(s[0], s[1..]);
      if first.Fail? then Fail
      else match ParseQuoted(first.rest)
        case Fail => Fail
        case Done(t, rest) => Done([first.value] + t, rest)
  }

  function ParseNumber(t: string, fmt: NumberFormat): (r: Parsed<Json>)
    ensures r.Done? ==> |r.rest| < |t|
  {
    match ScanNumber(t)
    case None => Fail
    case Some(n) =>
      match fmt(t[..n])
      case None => Fail
      case Some(literal) => Done(Num(literal), t[n..])
  }

  function ParseScalar(t: string, fmt: NumberFormat): (r: Parsed<Json>)
    ensures r.Done? ==> |r.rest| < |t|
  {
    if "null" <= t then Done(Null, t[4..])
    else if "true" <= t then Done(Bool(true), t[4..])
    else if "false" <= t then Done(Bool(false), t[5..])
    else ParseNumber(t, fmt)
  }

  function ParseString(s: string): (r: Parsed<Json>)
    ensures r.Done? ==> |r.rest| < |s|
  {
    match ParseQuoted(s)
    case Fail => Fail
    case Done(text, rest) => Done(Str(text), rest)
  }

  function ParseValue(s: string, depth: nat, fmt: NumberFormat): (r: Parsed<Json>)
    ensures r.Done? ==> |r.rest| < |s|
    decreases |s|, 2
  {
    var t := SkipWs(s);
    if t == "" then Fail
    else if t[0] == '"' then ParseString(t[1..])
    else if t[0] == '[' then ParseArray(t[1..], depth, fmt)
    else if t[0] == '{' then ParseObject(t[1..], depth, fmt)
    else ParseScalar(t, fmt)
  }

  // An array whose opening bracket has been read.
  function ParseArray(s: string, depth: nat, fmt: NumberFormat): (r: Parsed<Json>)
    ensures r.Done? ==> |r.rest| < |s|
    decreases |s|, 4
  {
    var u := SkipWs(s);
    if depth <= 1 then Fail
    else if u != "" && u[0] == ']' then Done(Arr([]), u[1..])
    else match ParseItems(s, depth - 1, fmt)
      case Fail => Fail
      case Done(items, rest) => Done(Arr(items), rest)
  }

  // An object whose opening brace has been read.
  function ParseObject(s: string, depth: nat, fmt: NumberFormat): (r: Parsed<Json>)
    ensures r.Done? ==> |r.rest| < |s|
    decreases |s|, 4
  {
    var u := SkipWs(s);
    if depth <= 1 then Fail
    else if u != "" && u[0] == '}' then Done(Obj([]), u[1..])
    else match ParseMembers(s, depth - 1, fmt)
      case Fail => Fail
      case Done(members, rest) => Done(Obj(BuildMap(members)), rest)
  }

  // One or more elements up to the closing bracket.
  function ParseItems(s: string, depth: nat, fmt: NumberFormat): (r: Parsed<seq<Json>>)
    ensures r.Done? ==> |r.rest| < |s|
    decreases |s|, 3
  {
    match ParseValue(s, depth, fmt)
    case Fail => Fail
    case Done(v, rest) =>
      var t := SkipWs(rest);
      if t == "" then Fail
      else if t[0] == ']' then Done([v], t[1..])
      else if t[0] != ',' then Fail
      else match ParseItems(t[1..], depth, fmt)
        case Fail => Fail
        case Done(items, end) => Done([v] + items, end)
  }

  // A key and the colon after it.
  function ParseKey(s: string): (r: Parsed<string>)
    ensures r.Done? ==> |r.rest| < |s|
  {
    var t := SkipWs(s);
    if t == "" || t[0] != '"' then Fail
    else match ParseQuoted(t[1..])
      case Fail => Fail
      case Done(key, rest) =>
        var u := SkipWs(rest);
        if u == "" || u[0] != ':' then Fail else Done(key, u[1..])
  }

  // One or more members up to the closing brace.
  function ParseMembers(s: string, depth: nat, fmt: NumberFormat): (r: Parsed<seq<Entry>>)
    ensures r.Done? ==> |r.rest| < |s|
    decreases |s|, 3
  {
    match ParseKey(s)
    case Fail => Fail
    case Done(key, afterKey) =>
      match ParseValue(afterKey, depth, fmt)
      case Fail => Fail
      case Done(v, rest) =>
        var t := SkipWs(rest);
        if t == "" then Fail
        else if t[0] == '}' then Done([Entry(key, v)], t[1..])
        else if t[0] != ',' then Fail
        else match ParseMembers(t[1..], depth, fmt)
          case Fail => Fail
          case Done(members, end) => Done([Entry(key, v)] + members, end)
  }

  // `serde_json::from_str`: one value and nothing but white space after it.
  function Parse(s: string, fmt: NumberFormat): Option<Json> {
    match ParseValue(s, MAX_DEPTH, fmt)
    case Fail => None
    case Done(v, rest) => if SkipWs(rest) == "" then Some(v) else None
  }
}
