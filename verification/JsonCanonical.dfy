// The values that parsing builds: keys in order, literals in printed form, nesting within the
// limit.  For them printing and parsing are inverse to each other.
module JsonCanonical {
  import opened Wrappers
  import opened Json
  import opened JsonRoundTrip
  import opened ByteOrder

  // The printed form of a number is a number that prints as itself.
  ghost predicate PrintsNumbers(fmt: NumberFormat) {
    forall t :: fmt(t).Some? ==> ScanNumber(fmt(t).value) == Some(|fmt(t).value|) && fmt(fmt(t).value) == fmt(t)
  }

  ghost predicate AllCanonical(entries: seq<Entry>, depth: nat, fmt: NumberFormat) {
    forall i :: 0 <= i < |entries| ==> Canonical(entries[i].value, depth, fmt)
  }

  // ----- Objects -----

  lemma {:induction false} PutMembers(entries: seq<Entry>, e: Entry)
    ensures Put(entries, e) != []
    ensures forall x :: x in Put(entries, e) ==> x == e || x in entries
  {
    if entries != [] { PutMembers(entries[1..], e); }
  }

  lemma SortedCons(e: Entry, entries: seq<Entry>)
    requires SortedKeys(entries) && forall x :: x in entries ==> StrLess(e.key, x.key)
    ensures SortedKeys([e] + entries)
  {
    var s := [e] + entries;
    forall i, j | 0 <= i < j < |s| ensures StrLess(s[i].key, s[j].key) {
      assert s[j] == entries[j - 1] && s[j] in entries;
    }
  }

  lemma SortedTail(entries: seq<Entry>)
    requires SortedKeys(entries) && entries != []
    ensures SortedKeys(entries[1..])
    ensures forall x :: x in entries[1..] ==> StrLess(entries[0].key, x.key)
  {
  }

  lemma {:induction false} PutSorted(entries: seq<Entry>, e: Entry)
    requires SortedKeys(entries)
    ensures SortedKeys(Put(entries, e))
  {
    if entries != [] {
      var first := entries[0];
      SortedTail(entries);
      if first.key == e.key {
        SortedCons(e, entries[1..]);
      } else if StrLess(e.key, first.key) {
        forall x | x in entries ensures StrLess(e.key, x.key) {
          if x in entries[1..] { StrTransitive(e.key, first.key, x.key); }
        }
        SortedCons(e, entries);
      } else {
        StrTotal(e.key, first.key);
        PutSorted(entries[1..], e);
        PutMembers(entries[1..], e);
        SortedCons(first, Put(entries[1..], e));
      }
    }
  }

  lemma {:induction false} BuildMapCanonical(members: seq<Entry>, depth: nat, fmt: NumberFormat)
    requires AllCanonical(members, depth, fmt)
    ensures SortedKeys(BuildMap(members)) && AllCanonical(BuildMap(members), depth, fmt)
  {
    if members != [] {
      var n := |members| - 1;
      var built := BuildMap(members[..n]);
      BuildMapCanonical(members[..n], depth, fmt);
      PutSorted(built, members[n]);
      PutMembers(built, members[n]);
      var r := Put(built, members[n]);
      forall i | 0 <= i < |r| ensures Canonical(r[i].value, depth, fmt) {
        assert r[i] in r;
      }
    }
  }

  // ----- Repeated keys -----

  // The value of the last member with a key.
  function LastValue(members: seq<Entry>, key: string): Option<Json> {
    if members == [] then None
    else if members[|members| - 1].key == key then Some(members[|members| - 1].value)
    else LastValue(members[..|members| - 1], key)
  }

  lemma {:induction false} PutIff(entries: seq<Entry>, x: Entry, e: Entry)
    requires SortedKeys(entries)
    ensures e in Put(entries, x) <==> e == x || (e in entries && e.key != x.key)
  {
    if entries != [] {
      var first := entries[0];
      SortedTail(entries);
      assert entries == [first] + entries[1..];
      if first.key == x.key {
        NotBelow(entries[1..], first.key, e);
      } else if StrLess(x.key, first.key) {
        StrLessIrreflexive(x.key);
        if e in entries[1..] && e.key == x.key { StrTransitive(x.key, first.key, e.key); }
      } else {
        PutIff(entries[1..], x, e);
      }
    }
  }

  lemma NotBelow(entries: seq<Entry>, key: string, e: Entry)
    requires forall x :: x in entries ==> StrLess(key, x.key)
    ensures e in entries ==> e.key != key
  {
    StrLessIrreflexive(key);
  }

  // An object holds each key of its text once, in order, with the value it was given last.
  lemma {:induction false} BuildMapIff(members: seq<Entry>, e: Entry)
    ensures SortedKeys(BuildMap(members))
    ensures e in BuildMap(members) <==> LastValue(members, e.key) == Some(e.value)
  {
    if members != [] {
      var n := |members| - 1;
      BuildMapIff(members[..n], e);
      PutSorted(BuildMap(members[..n]), members[n]);
      PutIff(BuildMap(members[..n]), members[n], e);
    }
  }

  // ----- What the parser reads besides printed texts -----

  // White space before a value, a key, a bracket or the end changes nothing.
  lemma SpaceIgnored(c: char, s: string, depth: nat, fmt: NumberFormat)
    requires c == ' ' || c == '\t' || c == '\n' || c == '\r'
    ensures SkipWs([c] + s) == SkipWs(s)
    ensures ParseValue([c] + s, depth, fmt) == ParseValue(s, depth, fmt)
    ensures ParseKey([c] + s) == ParseKey(s)
    ensures Parse([c] + s, fmt) == Parse(s, fmt)
  {
    assert ([c] + s)[1..] == s;
  }

  lemma Unescapes(c: char, t: string)
    ensures c in "\"\\/" ==> Unescape([c] + t) == Done(c, t)
    ensures Unescape("n" + t) == Done('\n', t) && Unescape("r" + t) == Done('\r', t)
    ensures Unescape("t" + t) == Done('\t', t)
    ensures Unescape("b" + t) == Done(8 as char, t) && Unescape("f" + t) == Done(12 as char, t)
    ensures c !in "\"\\/bfnrtu" ==> Unescape([c] + t) == Fail
  {
    assert ([c] + t)[1..] == t;
    assert ("n" + t)[1..] == t && ("r" + t)[1..] == t && ("t" + t)[1..] == t;
    assert ("b" + t)[1..] == t && ("f" + t)[1..] == t;
  }

  // Four hex digits spell a character, and only surrogates do not stand alone.
  lemma UnescapesHex(a: char, b: char, c: char, d: char, t: string)
    requires HexValue(a).Some? && HexValue(b).Some? && HexValue(c).Some? && HexValue(d).Some?
    requires t == "" || t[0] != '\\'
    ensures var v := 4096 * HexValue(a).value + 256 * HexValue(b).value + 16 * HexValue(c).value + HexValue(d).value;
            Unescape("u" + [a, b, c, d] + t) == if 0xD800 <= v < 0xE000 then Fail else Done(v as char, t)
  {
    var s := "u" + [a, b, c, d] + t;
    assert s[1..][0] == a && s[1..][1] == b && s[1..][2] == c && s[1..][3] == d && s[5..] == t;
  }

  // The printer escapes what it must and spells nothing else.
  lemma Escapes(c: char)
    ensures c == '"' || c == '\\' ==> EscapeChar(c) == "\\" + [c]
    ensures c == '\n' ==> EscapeChar(c) == "\\n"
    ensures c == '\r' ==> EscapeChar(c) == "\\r"
    ensures c == '\t' ==> EscapeChar(c) == "\\t"
    ensures c as int == 8 ==> EscapeChar(c) == "\\b"
    ensures c as int == 12 ==> EscapeChar(c) == "\\f"
    ensures c >= ' ' && c != '"' && c != '\\' ==> EscapeChar(c) == [c]
    ensures c < ' ' && c !in "\n\r\t" && c as int != 8 && c as int != 12 ==>
              && |EscapeChar(c)| == 6 && EscapeChar(c)[..4] == "\\u00"
              && c as int == 16 * (if EscapeChar(c)[4] == '1' then 1 else 0) + HexDigitValue(EscapeChar(c)[5])
  {
  }

  function HexDigitValue(c: char): int {
    if '0' <= c <= '9' then c as int - '0' as int else c as int - 'a' as int + 10
  }

  // ----- Nesting -----

  function Nested(n: nat): Json { if n == 0 then Null else Arr([Nested(n - 1)]) }

  function Brackets(n: nat): string { if n == 0 then "" else "[" + Brackets(n - 1) }

  lemma {:induction false} NestedCanonical(n: nat, depth: nat, fmt: NumberFormat)
    requires n < depth
    ensures Canonical(Nested(n), depth, fmt)
  {
    if n > 0 { NestedCanonical(n - 1, depth - 1, fmt); }
  }

  lemma {:induction false} NestedPrints(n: nat) returns (rest: string)
    ensures Print(Nested(n)) == Brackets(n) + rest
  {
    if n == 0 {
      rest := "null";
      assert Print(Nested(0)) == Brackets(0) + rest;
    } else {
      var inner := NestedPrints(n - 1);
      rest := inner + "]";
      assert [Nested(n - 1)][0] == Nested(n - 1);
      assert Print(Nested(n)) == "[" + (Print(Nested(n - 1)) + "]");
      assert "[" + (Brackets(n - 1) + inner + "]") == "[" + Brackets(n - 1) + (inner + "]");
    }
  }

  lemma {:induction false} TooDeep(n: nat, rest: string, depth: nat, fmt: NumberFormat)
    requires 0 < n && depth <= n
    ensures ParseValue(Brackets(n) + rest, depth, fmt) == Fail
    decreases n
  {
    var s := Brackets(n - 1) + rest;
    assert Brackets(n) + rest == "[" + s;
    Dispatch('[', s, depth, fmt);
    if depth > 1 {
      assert s[0] == '[';
      TooDeep(n - 1, rest, depth - 1, fmt);
      assert ParseItems(s, depth - 1, fmt) == Fail;
    }
  }

  // 127 brackets are read and 128 are not.
  lemma NestingLimit(n: nat, fmt: NumberFormat)
    ensures Parse(Print(Nested(n)), fmt) == if n <= 127 then Some(Nested(n)) else None
  {
    if n <= 127 {
      NestedCanonical(n, MAX_DEPTH, fmt);
      ParsePrint(Nested(n), fmt);
    } else {
      var rest := NestedPrints(n);
      TooDeep(n, rest, MAX_DEPTH, fmt);
    }
  }

  // A bare control character ends nothing but the parse.
  lemma NoBareControls(c: char, s: string)
    requires c < 32 as char
    ensures ParseQuoted([c] + s) == Fail
  {
  }

  lemma ObjectIsCanonical(members: seq<Entry>, depth: nat, fmt: NumberFormat)
    requires depth > 1 && AllCanonical(members, depth - 1, fmt)
    ensures Canonical(Obj(BuildMap(members)), depth, fmt)
  {
    BuildMapCanonical(members, depth - 1, fmt);
  }

  // ----- Every function of the parser -----

  lemma ScalarCanonical(t: string, depth: nat, fmt: NumberFormat)
    requires PrintsNumbers(fmt) && ParseScalar(t, fmt).Done?
    ensures Canonical(ParseScalar(t, fmt).value, depth, fmt)
  {
  }

  lemma {:induction false} ValueCanonical(s: string, depth: nat, fmt: NumberFormat)
    requires PrintsNumbers(fmt) && ParseValue(s, depth, fmt).Done?
    ensures Canonical(ParseValue(s, depth, fmt).value, depth, fmt)
    decreases |s|, 2
  {
    var t := SkipWs(s);
    if t[0] == '"' {
    } else if t[0] == '[' {
      ArrayCanonical(t[1..], depth, fmt);
    } else if t[0] == '{' {
      ObjectCanonical(t[1..], depth, fmt);
    } else {
      ScalarCanonical(t, depth, fmt);
    }
  }

  lemma {:induction false} ArrayCanonical(s: string, depth: nat, fmt: NumberFormat)
    requires PrintsNumbers(fmt) && ParseArray(s, depth, fmt).Done?
    ensures Canonical(ParseArray(s, depth, fmt).value, depth, fmt)
    decreases |s|, 4
  {
    var u := SkipWs(s);
    if !(u != "" && u[0] == ']') {
      ItemsCanonical(s, depth - 1, fmt);
    }
  }

  lemma ObjectParts(s: string, depth: nat, fmt: NumberFormat)
    requires ParseObject(s, depth, fmt).Done?
    ensures var u := SkipWs(s);
            if u != "" && u[0] == '}' then ParseObject(s, depth, fmt) == Done(Obj([]), u[1..])
            else
              && depth > 1 && ParseMembers(s, depth - 1, fmt).Done?
              && var r := ParseMembers(s, depth - 1, fmt);
                 ParseObject(s, depth, fmt) == Done(Obj(BuildMap(r.value)), r.rest)
  {
  }

  lemma {:induction false} ObjectCanonical(s: string, depth: nat, fmt: NumberFormat)
    requires PrintsNumbers(fmt) && ParseObject(s, depth, fmt).Done?
    ensures Canonical(ParseObject(s, depth, fmt).value, depth, fmt)
    decreases |s|, 4
  {
    var u := SkipWs(s);
    ObjectParts(s, depth, fmt);
    if !(u != "" && u[0] == '}') {
      MembersCanonical(s, depth - 1, fmt);
      ObjectIsCanonical(ParseMembers(s, depth - 1, fmt).value, depth, fmt);
    }
  }

  lemma {:induction false} ItemsCanonical(s: string, depth: nat, fmt: NumberFormat)
    requires PrintsNumbers(fmt) && ParseItems(s, depth, fmt).Done?
    ensures forall v :: v in ParseItems(s, depth, fmt).value ==> Canonical(v, depth, fmt)
    decreases |s|, 3
  {
    ValueCanonical(s, depth, fmt);
    var t := SkipWs(ParseValue(s, depth, fmt).rest);
    if t[0] != ']' {
      ItemsCanonical(t[1..], depth, fmt);
    }
  }

  lemma {:induction false} MembersCanonical(s: string, depth: nat, fmt: NumberFormat)
    requires PrintsNumbers(fmt) && ParseMembers(s, depth, fmt).Done?
    ensures AllCanonical(ParseMembers(s, depth, fmt).value, depth, fmt)
    decreases |s|, 3
  {
    var afterKey := ParseKey(s).rest;
    ValueCanonical(afterKey, depth, fmt);
    var t := SkipWs(ParseValue(afterKey, depth, fmt).rest);
    if t[0] != '}' {
      MembersCanonical(t[1..], depth, fmt);
    }
  }

  // ----- Both directions -----

  lemma ParsedIsCanonical(s: string, fmt: NumberFormat)
    requires PrintsNumbers(fmt) && Parse(s, fmt).Some?
    ensures Canonical(Parse(s, fmt).value, MAX_DEPTH, fmt)
    ensures Parse(Print(Parse(s, fmt).value), fmt) == Parse(s, fmt)
  {
    ValueCanonical(s, MAX_DEPTH, fmt);
    ParsePrint(Parse(s, fmt).value, fmt);
  }

  // The canonical values are exactly those that some text parses to.
  lemma CanonicalIff(v: Json, fmt: NumberFormat)
    requires PrintsNumbers(fmt)
    ensures Canonical(v, MAX_DEPTH, fmt) <==> exists s :: Parse(s, fmt) == Some(v)
  {
    if Canonical(v, MAX_DEPTH, fmt) {
      ParsePrint(v, fmt);
      assert Parse(Print(v), fmt) == Some(v);
    }
    if exists s :: Parse(s, fmt) == Some(v) {
      var s :| Parse(s, fmt) == Some(v);
      ParsedIsCanonical(s, fmt);
    }
  }
}
