// Reading back what was printed gives the same value, so printing is injective.
module JsonRoundTrip {
  import opened Wrappers
  import opened Json

  ghost predicate SortedKeys(entries: seq<Entry>) {
    forall i, j :: 0 <= i < j < |entries| ==> StrLess(entries[i].key, entries[j].key)
  }

  // The values `serde_json` itself builds: keys in order, literals in printed form,
  // fewer than `depth` levels of nesting.
  ghost predicate Canonical(v: Json, depth: nat, fmt: NumberFormat) {
    match v
    case Num(literal) => ScanNumber(literal) == Some(|literal|) && fmt(literal) == Some(literal)
    case Arr(items) => depth > 1 && forall i :: 0 <= i < |items| ==> Canonical(items[i], depth - 1, fmt)
    case Obj(entries) =>
      && depth > 1
      && SortedKeys(entries)
      && forall i :: 0 <= i < |entries| ==> Canonical(entries[i].value, depth - 1, fmt)
    case _ => true
  }

  // What may follow a value inside a printed text.
  predicate EndsValue(rest: string) { rest == "" || rest[0] in ",]}" }

  // ----- Strings -----

  lemma HexRoundTrip(n: nat)
    requires n < 16
    ensures HexValue(HexDigit(n)) == Some(n)
  {
  }

  lemma EscapeCharRoundTrip(c: char, tail: string)
    ensures var s := EscapeChar(c) + tail;
            && s[0] >= 32 as char
            && s[0] != '"'
            && (s[0] == '\\' ==> Unescape(s[1..]) == Done(c, tail))
            && (s[0] != '\\' ==> c == s[0] && s[1..] == tail)
  {
    var s := EscapeChar(c) + tail;
    if c < 32 as char && |EscapeChar(c)| == 6 {
      var hi, lo := c as nat / 16, c as nat % 16;
      HexRoundTrip(hi);
      HexRoundTrip(lo);
      var u := s[1..];
      assert u == ['u', '0', '0', HexDigit(hi), HexDigit(lo)] + tail;
      assert u[1..][0] == '0' && u[1..][1] == '0' && u[1..][2] == HexDigit(hi) && u[1..][3] == HexDigit(lo);
      assert Hex4(u[1..]) == Some(c as nat);
      assert u[5..] == tail;
    } else if |EscapeChar(c)| == 2 {
      assert s[1..] == [s[1]] + tail;
    }
  }

  lemma {:induction false} QuotedRoundTrip(s: string, rest: string)
    ensures ParseQuoted(Quoted(s) + rest) == Done(s, rest)
  {
    if s == "" {
      assert (Quoted(s) + rest)[1..] == rest;
    } else {
      var tail := Quoted(s[1..]) + rest;
      assert Quoted(s) + rest == EscapeChar(s[0]) + tail;
      EscapeCharRoundTrip(s[0], tail);
      QuotedRoundTrip(s[1..], rest);
      assert s == [s[0]] + s[1..];
    }
  }

  // ----- Numbers -----

  lemma {:induction false} DigitsStop(a: string, rest: string)
    requires EndsValue(rest)
    ensures Digits(a + rest) == Digits(a)
  {
    if a == "" {
      assert a + rest == rest;
    } else {
      assert (a + rest)[1..] == a[1..] + rest;
      DigitsStop(a[1..], rest);
    }
  }

  lemma IntStops(l: string, rest: string)
    requires IntLen(l).Some? && EndsValue(rest)
    ensures IntLen(l + rest) == IntLen(l)
    ensures l[0] == '-' || IsDigit(l[0])
  {
    var sign := if l[0] == '-' then 1 else 0;
    assert (l + rest)[sign..] == l[sign..] + rest;
    DigitsStop(l[sign..], rest);
  }

  lemma FracStops(l: string, rest: string)
    requires FracLen(l).Some? && EndsValue(rest)
    ensures FracLen(l + rest) == FracLen(l)
  {
    if l != "" {
      assert (l + rest)[1..] == l[1..] + rest;
      DigitsStop(l[1..], rest);
    }
  }

  lemma ExpStops(l: string, rest: string)
    requires ExpLen(l).Some? && EndsValue(rest)
    ensures ExpLen(l + rest) == ExpLen(l)
  {
    if l != "" && (l[0] == 'e' || l[0] == 'E') {
      var sign := if |l| > 1 && (l[1] == '+' || l[1] == '-') then 1 else 0;
      assert (l + rest)[1 + sign..] == l[1 + sign..] + rest;
      DigitsStop(l[1 + sign..], rest);
    }
  }

  lemma TailStops(l: string, rest: string)
    requires TailLen(l).Some? && EndsValue(rest)
    ensures TailLen(l + rest) == TailLen(l)
  {
    FracStops(l, rest);
    var f := FracLen(l).value;
    assert (l + rest)[f..] == l[f..] + rest;
    ExpStops(l[f..], rest);
  }

  lemma ScanParts(s: string, i: nat, n: nat)
    requires IntLen(s) == Some(i) && i <= |s| && TailLen(s[i..]) == Some(n)
    ensures ScanNumber(s) == Some(i + n)
  {
  }

  lemma NumberStops(l: string, rest: string)
    requires ScanNumber(l) == Some(|l|) && EndsValue(rest)
    ensures ScanNumber(l + rest) == Some(|l|)
  {
    IntStops(l, rest);
    var i := IntLen(l).value;
    var n := TailLen(l[i..]).value;
    ScanParts(l, i, n);
    assert (l + rest)[i..] == l[i..] + rest;
    TailStops(l[i..], rest);
    ScanParts(l + rest, i, n);
  }

  // ----- Objects -----

  lemma {:induction false} StrLessIrreflexive(a: string)
    ensures !StrLess(a, a)
  {
    if a != "" { StrLessIrreflexive(a[1..]); }
  }

  lemma {:induction false} StrLessAsymmetric(a: string, b: string)
    requires StrLess(a, b)
    ensures !StrLess(b, a)
  {
    if a != "" && a[0] == b[0] { StrLessAsymmetric(a[1..], b[1..]); }
  }

  lemma {:induction false} PutLast(entries: seq<Entry>, e: Entry)
    requires forall i :: 0 <= i < |entries| ==> StrLess(entries[i].key, e.key)
    ensures Put(entries, e) == entries + [e]
  {
    if entries != [] {
      StrLessIrreflexive(e.key);
      StrLessAsymmetric(entries[0].key, e.key);
      PutLast(entries[1..], e);
      assert entries == [entries[0]] + entries[1..];
    }
  }

  lemma {:induction false} BuildSorted(entries: seq<Entry>)
    requires SortedKeys(entries)
    ensures BuildMap(entries) == entries
  {
    if entries != [] {
      var n := |entries| - 1;
      BuildSorted(entries[..n]);
      PutLast(entries[..n], entries[n]);
      assert entries == entries[..n] + [entries[n]];
    }
  }

  // ----- Values -----

  predicate StartsValue(s: string) { s != "" && s[0] !in " \n\t\r,:]}" }

  lemma PrintStarts(v: Json, depth: nat, fmt: NumberFormat)
    requires Canonical(v, depth, fmt)
    ensures StartsValue(Print(v))
  {
    if v.Num? { IntStops(v.literal, ""); }
  }

  lemma {:induction false} ValueRoundTrip(v: Json, rest: string, depth: nat, fmt: NumberFormat)
    requires Canonical(v, depth, fmt) && EndsValue(rest)
    ensures ParseValue(Print(v) + rest, depth, fmt) == Done(v, rest)
    decreases v, 2
  {
    match v {
      case Str(text) => StringRoundTrip(text, rest, depth, fmt);
      case Arr(items) => ArrayRoundTrip(items, rest, depth, fmt);
      case Obj(entries) => ObjectRoundTrip(entries, rest, depth, fmt);
      case Num(literal) => NumberRoundTrip(literal, rest, depth, fmt);
      case _ => LiteralRoundTrip(v, rest, depth, fmt);
    }
  }

  lemma LiteralRoundTrip(v: Json, rest: string, depth: nat, fmt: NumberFormat)
    requires v.Null? || v.Bool?
    ensures ParseValue(Print(v) + rest, depth, fmt) == Done(v, rest)
  {
    var t := Print(v) + rest;
    DispatchScalar(t, depth, fmt);
    assert t[..|Print(v)|] == Print(v) && t[|Print(v)|..] == rest;
  }

  lemma ScalarIsNumber(t: string, fmt: NumberFormat)
    requires t != "" && (t[0] == '-' || IsDigit(t[0]))
    ensures ParseScalar(t, fmt) == ParseNumber(t, fmt)
  {
    assert "null"[0] != t[0] && "true"[0] != t[0] && "false"[0] != t[0];
  }

  lemma DispatchScalar(t: string, depth: nat, fmt: NumberFormat)
    requires t != "" && t[0] !in " \n\t\r\"[{"
    ensures ParseValue(t, depth, fmt) == ParseScalar(t, fmt)
  {
    assert SkipWs(t) == t;
  }

  lemma NumberStep(literal: string, rest: string, fmt: NumberFormat)
    requires ScanNumber(literal + rest) == Some(|literal|) && fmt(literal) == Some(literal)
    ensures ParseNumber(literal + rest, fmt) == Done(Num(literal), rest)
  {
    var t := literal + rest;
    assert t[..|literal|] == literal && t[|literal|..] == rest;
  }

  lemma NumberRoundTrip(literal: string, rest: string, depth: nat, fmt: NumberFormat)
    requires Canonical(Num(literal), depth, fmt) && EndsValue(rest)
    ensures ParseValue(literal + rest, depth, fmt) == Done(Num(literal), rest)
  {
    var t := literal + rest;
    NumberStops(literal, rest);
    IntStops(literal, rest);
    NumberStep(literal, rest, fmt);
    DispatchScalar(t, depth, fmt);
    ScalarIsNumber(t, fmt);
  }

  lemma StringRoundTrip(text: string, rest: string, depth: nat, fmt: NumberFormat)
    ensures ParseValue(Print(Str(text)) + rest, depth, fmt) == Done(Str(text), rest)
  {
    var t := Print(Str(text)) + rest;
    assert t[1..] == Quoted(text) + rest;
    QuotedRoundTrip(text, rest);
    assert ParseString(t[1..]) == Done(Str(text), rest);
  }

  lemma Dispatch(c: char, s: string, depth: nat, fmt: NumberFormat)
    ensures c == '[' ==> ParseValue([c] + s, depth, fmt) == ParseArray(s, depth, fmt)
    ensures c == '{' ==> ParseValue([c] + s, depth, fmt) == ParseObject(s, depth, fmt)
  {
    assert ([c] + s)[1..] == s;
  }

  lemma ArrayStep(s: string, depth: nat, fmt: NumberFormat, items: seq<Json>, rest: string)
    requires depth > 1 && StartsValue(s) && ParseItems(s, depth - 1, fmt) == Done(items, rest)
    ensures ParseArray(s, depth, fmt) == Done(Arr(items), rest)
  {
    assert SkipWs(s) == s;
  }

  lemma {:induction false} ArrayRoundTrip(items: seq<Json>, rest: string, depth: nat, fmt: NumberFormat)
    requires Canonical(Arr(items), depth, fmt) && EndsValue(rest)
    ensures ParseValue(Print(Arr(items)) + rest, depth, fmt) == Done(Arr(items), rest)
    decreases items, 1
  {
    var s := PrintItems(items) + rest;
    assert Print(Arr(items)) + rest == "[" + s;
    Dispatch('[', s, depth, fmt);
    if items == [] {
      assert s[1..] == rest;
    } else {
      ItemsRoundTrip(items, rest, depth - 1, fmt);
      PrintStarts(items[0], depth - 1, fmt);
      assert s[0] == Print(items[0])[0];
      ArrayStep(s, depth, fmt, items, rest);
    }
    assert ParseArray(s, depth, fmt) == Done(Arr(items), rest);
  }

  lemma ObjectStep(s: string, depth: nat, fmt: NumberFormat, members: seq<Entry>, rest: string)
    requires depth > 1 && "\"" <= s && ParseMembers(s, depth - 1, fmt) == Done(members, rest)
    ensures ParseObject(s, depth, fmt) == Done(Obj(BuildMap(members)), rest)
  {
    assert SkipWs(s) == s;
  }

  lemma PrintObject(entries: seq<Entry>, rest: string)
    ensures Print(Obj(entries)) + rest == "{" + (PrintEntries(entries) + rest)
  {
  }

  lemma ObjectJoin(entries: seq<Entry>, rest: string, depth: nat, fmt: NumberFormat)
    requires depth > 1 && SortedKeys(entries)
    requires entries != [] ==> ParseMembers(PrintEntries(entries) + rest, depth - 1, fmt) == Done(entries, rest)
    ensures ParseObject(PrintEntries(entries) + rest, depth, fmt) == Done(Obj(entries), rest)
  {
    var s := PrintEntries(entries) + rest;
    if entries == [] {
      assert s == "}" + rest && s[1..] == rest;
    } else {
      assert s[0] == PrintEntry(entries[0])[0];
      ObjectStep(s, depth, fmt, entries, rest);
      BuildSorted(entries);
    }
  }

  lemma {:induction false} ObjectRoundTrip(entries: seq<Entry>, rest: string, depth: nat, fmt: NumberFormat)
    requires Canonical(Obj(entries), depth, fmt) && EndsValue(rest)
    ensures ParseValue(Print(Obj(entries)) + rest, depth, fmt) == Done(Obj(entries), rest)
    decreases entries, 1
  {
    if entries != [] {
      MembersRoundTrip(entries, rest, depth - 1, fmt);
    }
    ObjectJoin(entries, rest, depth, fmt);
    PrintObject(entries, rest);
    Dispatch('{', PrintEntries(entries) + rest, depth, fmt);
  }

  lemma ItemsStep(s: string, depth: nat, fmt: NumberFormat, v: Json, rest: string, more: Parsed<seq<Json>>)
    requires ParseValue(s, depth, fmt) == Done(v, rest) && rest != ""
    ensures rest[0] == ']' ==> ParseItems(s, depth, fmt) == Done([v], rest[1..])
    ensures rest[0] == ',' && ParseItems(rest[1..], depth, fmt) == more && more.Done? ==>
              ParseItems(s, depth, fmt) == Done([v] + more.value, more.rest)
  {
  }

  lemma {:induction false} ItemsRoundTrip(items: seq<Json>, rest: string, depth: nat, fmt: NumberFormat)
    requires items != [] && forall i :: 0 <= i < |items| ==> Canonical(items[i], depth, fmt)
    ensures ParseItems(PrintItems(items) + rest, depth, fmt) == Done(items, rest)
    decreases items, 0
  {
    var more := |items| > 1;
    var tail := if more then PrintItems(items[1..]) + rest else rest;
    var after := (if more then "," else "]") + tail;
    assert PrintItems(items) + rest == Print(items[0]) + after;
    assert after[0] == (if more then ',' else ']') && after[1..] == tail;
    ValueRoundTrip(items[0], after, depth, fmt);
    if more {
      ItemsRoundTrip(items[1..], rest, depth, fmt);
      assert ParseItems(after[1..], depth, fmt) == Done(items[1..], rest);
    } else {
      assert items == [items[0]];
    }
    ItemsStep(Print(items[0]) + after, depth, fmt, items[0], after, Done(items[1..], rest));
    assert items == [items[0]] + items[1..];
  }

  lemma KeyStep(s: string, key: string, rest: string)
    requires ParseQuoted(s) == Done(key, ":" + rest)
    ensures ParseKey("\"" + s) == Done(key, rest)
  {
    assert ("\"" + s)[1..] == s && (":" + rest)[1..] == rest;
  }

  lemma KeyRoundTrip(e: Entry, after: string)
    ensures ParseKey(PrintEntry(e) + after) == Done(e.key, Print(e.value) + after)
  {
    var value := Print(e.value) + after;
    assert PrintEntry(e) + after == "\"" + (Quoted(e.key) + (":" + value));
    QuotedRoundTrip(e.key, ":" + value);
    KeyStep(Quoted(e.key) + (":" + value), e.key, value);
  }

  lemma LastMember(s: string, depth: nat, fmt: NumberFormat, e: Entry, afterKey: string, rest: string)
    requires ParseKey(s) == Done(e.key, afterKey) && ParseValue(afterKey, depth, fmt) == Done(e.value, "}" + rest)
    ensures ParseMembers(s, depth, fmt) == Done([e], rest)
  {
    assert ("}" + rest)[1..] == rest;
  }

  lemma NextMember(s: string, depth: nat, fmt: NumberFormat, e: Entry, afterKey: string, rest: string,
                   members: seq<Entry>, end: string)
    requires ParseKey(s) == Done(e.key, afterKey)
    requires ParseValue(afterKey, depth, fmt) == Done(e.value, rest) && rest != "" && rest[0] == ','
    requires ParseMembers(rest[1..], depth, fmt) == Done(members, end)
    ensures ParseMembers(s, depth, fmt) == Done([e] + members, end)
  {
  }

  lemma Regroup(a: string, sep: string, b: string, rest: string)
    ensures a + sep + b + rest == a + (sep + (b + rest)) && a + sep + rest == a + (sep + rest)
  {
  }

  // What follows the first member in a printed object.
  function AfterMember(entries: seq<Entry>, rest: string): string
    requires entries != []
  {
    if |entries| > 1 then "," + (PrintEntries(entries[1..]) + rest) else "}" + rest
  }

  lemma PrintEntriesStep(entries: seq<Entry>, rest: string)
    requires entries != []
    ensures PrintEntries(entries) + rest == PrintEntry(entries[0]) + AfterMember(entries, rest)
  {
    if |entries| > 1 {
      Regroup(PrintEntry(entries[0]), ",", PrintEntries(entries[1..]), rest);
    } else {
      Regroup(PrintEntry(entries[0]), "}", "", rest);
    }
  }

  lemma {:induction false} MembersRoundTrip(entries: seq<Entry>, rest: string, depth: nat, fmt: NumberFormat)
    requires entries != [] && forall i :: 0 <= i < |entries| ==> Canonical(entries[i].value, depth, fmt)
    ensures ParseMembers(PrintEntries(entries) + rest, depth, fmt) == Done(entries, rest)
    decreases entries, 0
  {
    var e, after := entries[0], AfterMember(entries, rest);
    PrintEntriesStep(entries, rest);
    KeyRoundTrip(e, after);
    ValueRoundTrip(e.value, after, depth, fmt);
    if |entries| > 1 {
      var tail := PrintEntries(entries[1..]) + rest;
      MembersRoundTrip(entries[1..], rest, depth, fmt);
      assert after[1..] == tail;
      NextMember(PrintEntry(e) + after, depth, fmt, e, Print(e.value) + after, after, entries[1..], rest);
    } else {
      LastMember(PrintEntry(e) + after, depth, fmt, e, Print(e.value) + after, rest);
    }
    FirstAndRest(entries);
  }

  lemma FirstAndRest<T>(s: seq<T>)
    requires s != []
    ensures [s[0]] + s[1..] == s && (|s| == 1 ==> [s[0]] == s)
  {
  }

  lemma ParsePrint(v: Json, fmt: NumberFormat)
    requires Canonical(v, MAX_DEPTH, fmt)
    ensures Parse(Print(v), fmt) == Some(v)
  {
    ValueRoundTrip(v, "", MAX_DEPTH, fmt);
    assert Print(v) + "" == Print(v);
  }

  lemma PrintInjective(v: Json, w: Json, fmt: NumberFormat)
    requires Canonical(v, MAX_DEPTH, fmt) && Canonical(w, MAX_DEPTH, fmt)
    requires Print(v) == Print(w)
    ensures v == w
  {
    ParsePrint(v, fmt);
    ParsePrint(w, fmt);
  }
}
