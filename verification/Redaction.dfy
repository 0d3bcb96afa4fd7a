// Redaction of JSON values and log text: nt-be/src/observability.rs.
module Redaction {
  import opened Wrappers
  import opened Utf8
  import opened Truncation
  import opened Json
  import opened JsonRoundTrip
  import opened JsonCanonical

  // What the source takes from libraries: Unicode lower case, the two regular-expression
  // passes, and the printed form of numbers.  All are deterministic; nothing else is assumed.
  datatype Rules = Rules(lower: char -> string, keyValuePass: string -> string, jwtPass: string -> string,
                         fmt: NumberFormat)

  const REDACTED: string := "[REDACTED]"

  // ----- Sensitive keys -----

  function NormalizeKey(key: string, rules: Rules): string {
    if key == "" then ""
    else (if key[0] in "_-." then "" else rules.lower(key[0])) + NormalizeKey(key[1..], rules)
  }

  predicate IsSensitiveKey(key: string, rules: Rules) {
    NormalizeKey(key, rules) in ["accesstoken", "refreshtoken", "token", "jwt", "secret", "apikey", "authorization"]
  }

  // ----- The termination measure: bytes of the longest string in a value -----

  function Max(a: nat, b: nat): nat { if a < b then b else a }

  function Weight(v: Json): nat {
    match v
    case Str(text) => Len(text) + 1
    case Arr(items) => WeightItems(items)
    case Obj(entries) => WeightEntries(entries)
    case _ => 0
  }

  function WeightItems(items: seq<Json>): nat {
    if items == [] then 0 else Max(Weight(items[0]), WeightItems(items[1..]))
  }

  function WeightEntries(entries: seq<Entry>): nat {
    if entries == [] then 0 else Max(Weight(entries[0].value), WeightEntries(entries[1..]))
  }

  lemma {:induction false} WeightItemsBound(items: seq<Json>, i: nat)
    requires i < |items|
    ensures Weight(items[i]) <= WeightItems(items)
  {
    if i > 0 { WeightItemsBound(items[1..], i - 1); }
  }

  lemma {:induction false} WeightEntriesBound(entries: seq<Entry>, i: nat)
    requires i < |entries|
    ensures Weight(entries[i].value) <= WeightEntries(entries)
  {
    if i > 0 { WeightEntriesBound(entries[1..], i - 1); }
  }

  lemma {:induction false} DropLen(s: string, n: nat)
    requires n <= |s|
    ensures Len(s[n..]) + n <= Len(s)
  {
    if n > 0 {
      DropLen(s[1..], n - 1);
      assert s[1..][n - 1..] == s[n..];
    }
  }

  lemma {:induction false} SkipWsLen(s: string)
    ensures Len(SkipWs(s)) <= Len(s)
  {
    if s != "" { SkipWsLen(s[1..]); }
  }

  lemma UnescapeLen(s: string)
    requires Unescape(s).Done?
    ensures |EncodeChar(Unescape(s).value)| + Len(Unescape(s).rest) <= Len(s)
  {
    DropLen(s, 1);
    if s[0] == 'u' {
      var h := Hex4(s[1..]).value;
      if h < 0xD800 || 0xE000 <= h {
        DropLen(s, 5);
      } else {
        DropLen(s, 11);
      }
    }
  }

  lemma {:induction false} QuotedLen(s: string)
    requires ParseQuoted(s).Done?
    ensures Len(ParseQuoted(s).value) + 1 + Len(ParseQuoted(s).rest) <= Len(s)
    decreases |s|
  {
    DropLen(s, 1);
    if s[0] != '"' {
      var first := if s[0] == '\\' then Unescape(s[1..]) else Done(s[0], s[1..]);
      if s[0] == '\\' { UnescapeLen(s[1..]); }
      QuotedLen(first.rest);
      var t := ParseQuoted(first.rest).value;
      assert ([first.value] + t)[1..] == t;
    }
  }

  lemma {:induction false} PutWeight(entries: seq<Entry>, e: Entry)
    ensures WeightEntries(Put(entries, e)) <= Max(WeightEntries(entries), Weight(e.value))
  {
    if entries != [] {
      PutWeight(entries[1..], e);
      assert ([e] + entries[1..])[1..] == entries[1..];
      assert ([e] + entries)[1..] == entries;
      var t := Put(entries[1..], e);
      assert ([entries[0]] + t)[1..] == t;
    }
  }

  lemma {:induction false} WeightEntriesSnoc(entries: seq<Entry>, e: Entry)
    ensures WeightEntries(entries + [e]) == Max(WeightEntries(entries), Weight(e.value))
  {
    if entries == [] {
      assert [] + [e] == [e] && [e][1..] == [];
    } else {
      assert (entries + [e])[1..] == entries[1..] + [e];
      WeightEntriesSnoc(entries[1..], e);
    }
  }

  lemma {:induction false} BuildMapWeight(members: seq<Entry>)
    ensures WeightEntries(BuildMap(members)) <= WeightEntries(members)
  {
    if members != [] {
      var n := |members| - 1;
      BuildMapWeight(members[..n]);
      PutWeight(BuildMap(members[..n]), members[n]);
      WeightEntriesSnoc(members[..n], members[n]);
      assert members == members[..n] + [members[n]];
    }
  }

  lemma NumberLen(t: string, fmt: NumberFormat)
    requires ParseNumber(t, fmt).Done?
    ensures Weight(ParseNumber(t, fmt).value) + Len(ParseNumber(t, fmt).rest) < Len(t)
  {
    DropLen(t, ScanNumber(t).value);
  }

  lemma ScalarLen(t: string, fmt: NumberFormat)
    requires ParseScalar(t, fmt).Done?
    ensures Weight(ParseScalar(t, fmt).value) + Len(ParseScalar(t, fmt).rest) < Len(t)
  {
    if "null" <= t || "true" <= t { DropLen(t, 4); }
    else if "false" <= t { DropLen(t, 5); }
    else { NumberLen(t, fmt); }
  }

  // Every string inside a parsed text is shorter, in bytes, than the text it was read from.
  lemma {:induction false} ValueLen(s: string, depth: nat, fmt: NumberFormat)
    requires ParseValue(s, depth, fmt).Done?
    ensures Weight(ParseValue(s, depth, fmt).value) + Len(ParseValue(s, depth, fmt).rest) < Len(s)
    decreases |s|, 2
  {
    var t := SkipWs(s);
    SkipWsLen(s);
    DropLen(t, 1);
    if t[0] == '"' {
      QuotedLen(t[1..]);
    } else if t[0] == '[' {
      ArrayLen(t[1..], depth, fmt);
    } else if t[0] == '{' {
      ObjectLen(t[1..], depth, fmt);
    } else {
      ScalarLen(t, fmt);
    }
  }

  lemma {:induction false} ArrayLen(s: string, depth: nat, fmt: NumberFormat)
    requires ParseArray(s, depth, fmt).Done?
    ensures Weight(ParseArray(s, depth, fmt).value) + Len(ParseArray(s, depth, fmt).rest) < Len(s)
    decreases |s|, 4
  {
    var u := SkipWs(s);
    SkipWsLen(s);
    if u != "" && u[0] == ']' {
      DropLen(u, 1);
    } else {
      ItemsLen(s, depth - 1, fmt);
      var r := ParseItems(s, depth - 1, fmt);
      assert ParseArray(s, depth, fmt) == Done(Arr(r.value), r.rest);
      assert Weight(Arr(r.value)) == WeightItems(r.value);
    }
  }

  lemma ObjectWeight(members: seq<Entry>, rest: string, s: string)
    requires WeightEntries(members) + Len(rest) < Len(s)
    ensures Weight(Obj(BuildMap(members))) + Len(rest) < Len(s)
  {
    BuildMapWeight(members);
  }

  lemma CloseLen(s: string)
    requires SkipWs(s) != ""
    ensures Weight(Obj([])) + Len(SkipWs(s)[1..]) < Len(s)
  {
    SkipWsLen(s);
    DropLen(SkipWs(s), 1);
  }

  lemma {:induction false} ObjectLen(s: string, depth: nat, fmt: NumberFormat)
    requires ParseObject(s, depth, fmt).Done?
    ensures Weight(ParseObject(s, depth, fmt).value) + Len(ParseObject(s, depth, fmt).rest) < Len(s)
    decreases |s|, 4
  {
    var u := SkipWs(s);
    ObjectParts(s, depth, fmt);
    if u != "" && u[0] == '}' {
      CloseLen(s);
    } else {
      var r := ParseMembers(s, depth - 1, fmt);
      MembersLen(s, depth - 1, fmt);
      ObjectWeight(r.value, r.rest, s);
    }
  }

  lemma {:induction false} ItemsLen(s: string, depth: nat, fmt: NumberFormat)
    requires ParseItems(s, depth, fmt).Done?
    ensures WeightItems(ParseItems(s, depth, fmt).value) + Len(ParseItems(s, depth, fmt).rest) < Len(s)
    decreases |s|, 3
  {
    ValueLen(s, depth, fmt);
    var first := ParseValue(s, depth, fmt);
    var t := SkipWs(first.rest);
    SkipWsLen(first.rest);
    DropLen(t, 1);
    if t[0] == ']' {
      assert [first.value][1..] == [];
    } else {
      ItemsLen(t[1..], depth, fmt);
      var more := ParseItems(t[1..], depth, fmt).value;
      assert ([first.value] + more)[1..] == more;
    }
  }

  lemma KeyLen(s: string)
    requires ParseKey(s).Done?
    ensures Len(ParseKey(s).rest) < Len(s)
  {
    var t := SkipWs(s);
    SkipWsLen(s);
    DropLen(t, 1);
    QuotedLen(t[1..]);
    var rest := ParseQuoted(t[1..]).rest;
    SkipWsLen(rest);
    DropLen(SkipWs(rest), 1);
  }

  lemma {:induction false} MembersLen(s: string, depth: nat, fmt: NumberFormat)
    requires ParseMembers(s, depth, fmt).Done?
    ensures WeightEntries(ParseMembers(s, depth, fmt).value) + Len(ParseMembers(s, depth, fmt).rest) < Len(s)
    decreases |s|, 3
  {
    KeyLen(s);
    var key := ParseKey(s);
    ValueLen(key.rest, depth, fmt);
    var first := ParseValue(key.rest, depth, fmt);
    var e := Entry(key.value, first.value);
    var t := SkipWs(first.rest);
    SkipWsLen(first.rest);
    DropLen(t, 1);
    if t[0] == '}' {
      assert [e][1..] == [];
    } else {
      MembersLen(t[1..], depth, fmt);
      var more := ParseMembers(t[1..], depth, fmt).value;
      assert ([e] + more)[1..] == more;
    }
  }

  lemma StringsShorter(text: string, fmt: NumberFormat)
    requires Parse(text, fmt).Some?
    ensures Weight(Parse(text, fmt).value) < Len(text) + 1
  {
    ValueLen(text, MAX_DEPTH, fmt);
  }

  // ----- The rewrite: tree, string, parsed text and tree again -----

  function SanitizeText(input: string, rules: Rules): string
    decreases Len(input) + 1, 0, input
  {
    var parsed := Parse(input, rules.fmt);
    var output :=
      if parsed.None? then input
      else (StringsShorter(input, rules.fmt); Print(Redact(parsed.value, rules)));
    Truncated(rules.jwtPass(rules.keyValuePass(output)))
  }

  function Redact(v: Json, rules: Rules): Json
    decreases Weight(v), 2, v
  {
    match v
    case Obj(entries) => Obj(RedactEntries(entries, rules))
    case Arr(items) => Arr(RedactItems(items, rules))
    case Str(text) => Str(SanitizeText(text, rules))
    case _ => v
  }

  function RedactItems(items: seq<Json>, rules: Rules): (r: seq<Json>)
    decreases WeightItems(items), 2, items
  {
    if items == [] then [] else [Redact(items[0], rules)] + RedactItems(items[1..], rules)
  }

  function RedactEntry(e: Entry, rules: Rules): Entry
    decreases Weight(e.value), 2, e
  {
    if IsSensitiveKey(e.key, rules) then Entry(e.key, Str(REDACTED)) else Entry(e.key, Redact(e.value, rules))
  }

  function RedactEntries(entries: seq<Entry>, rules: Rules): (r: seq<Entry>)
    decreases WeightEntries(entries), 2, entries
  {
    if entries == [] then [] else [RedactEntry(entries[0], rules)] + RedactEntries(entries[1..], rules)
  }

  // Separators in a key never hide it.
  lemma {:induction false} SeparatorsIgnored(a: string, sep: char, b: string, rules: Rules)
    requires sep in "_-."
    ensures IsSensitiveKey(a + [sep] + b, rules) <==> IsSensitiveKey(a + b, rules)
  {
    NormalizeConcat(a, [sep] + b, rules);
    NormalizeConcat(a, b, rules);
    assert a + [sep] + b == a + ([sep] + b);
    assert ([sep] + b)[1..] == b;
    assert NormalizeKey([sep] + b, rules) == NormalizeKey(b, rules);
    assert NormalizeKey(a + [sep] + b, rules) == NormalizeKey(a + b, rules);
  }

  lemma {:induction false} NormalizeConcat(a: string, b: string, rules: Rules)
    ensures NormalizeKey(a + b, rules) == NormalizeKey(a, rules) + NormalizeKey(b, rules)
  {
    if a == "" {
      assert a + b == b;
    } else {
      assert (a + b)[1..] == a[1..] + b;
      NormalizeConcat(a[1..], b, rules);
    }
  }

  lemma {:induction false} RedactItemsAt(items: seq<Json>, rules: Rules)
    ensures |RedactItems(items, rules)| == |items|
    ensures forall i :: 0 <= i < |items| ==> RedactItems(items, rules)[i] == Redact(items[i], rules)
  {
    if items != [] { RedactItemsAt(items[1..], rules); }
  }

  lemma {:induction false} RedactEntriesAt(entries: seq<Entry>, rules: Rules)
    ensures |RedactEntries(entries, rules)| == |entries|
    ensures forall i :: 0 <= i < |entries| ==> RedactEntries(entries, rules)[i] == RedactEntry(entries[i], rules)
  {
    if entries != [] { RedactEntriesAt(entries[1..], rules); }
  }

  // Nor does its case, for any two characters with one lower-case form.
  lemma CaseIgnored(a: string, c: char, d: char, b: string, rules: Rules)
    requires c !in "_-." && d !in "_-." && rules.lower(c) == rules.lower(d)
    ensures IsSensitiveKey(a + [c] + b, rules) <==> IsSensitiveKey(a + [d] + b, rules)
  {
    NormalizeConcat(a, [c] + b, rules);
    NormalizeConcat(a, [d] + b, rules);
    assert a + [c] + b == a + ([c] + b) && a + [d] + b == a + ([d] + b);
    assert ([c] + b)[1..] == b && ([d] + b)[1..] == b;
    assert NormalizeKey([c] + b, rules) == rules.lower(c) + NormalizeKey(b, rules);
    assert NormalizeKey([d] + b, rules) == rules.lower(d) + NormalizeKey(b, rules);
  }

  // Lower-casing leaves lower-case letters alone.
  ghost predicate LowerFixes(rules: Rules) { forall c: char :: 'a' <= c <= 'z' ==> rules.lower(c) == [c] }

  lemma {:induction false} NormalFixes(key: string, rules: Rules)
    requires LowerFixes(rules) && forall i :: 0 <= i < |key| ==> 'a' <= key[i] <= 'z'
    ensures NormalizeKey(key, rules) == key
  {
    if key != "" {
      NormalFixes(key[1..], rules);
      assert key == [key[0]] + key[1..];
    }
  }

  // Of keys in lower-case letters exactly these seven are sensitive.
  lemma SensitiveKeys(key: string, rules: Rules)
    requires LowerFixes(rules) && forall i :: 0 <= i < |key| ==> 'a' <= key[i] <= 'z'
    ensures IsSensitiveKey(key, rules) <==>
              || key == "accesstoken" || key == "refreshtoken" || key == "token" || key == "jwt"
              || key == "secret" || key == "apikey" || key == "authorization"
  {
    NormalFixes(key, rules);
  }

  // ----- What the passes do to a text -----

  // A property of texts that a cut with its marker keeps.
  ghost predicate KeptByCut(clean: string -> bool) {
    forall s: string, k: nat :: k <= |s| && clean(s) ==> clean(s[..k] + "...[truncated]")
  }

  lemma CutKeeps(s: string, clean: string -> bool)
    requires KeptByCut(clean) && clean(s)
    ensures clean(Truncated(s))
  {
    assert clean(s[..Fit(s, MAX_SANITIZED_TEXT_LEN)] + "...[truncated]");
  }

  // What the second pass makes of every text holds of every sanitised one ...
  lemma JwtPassHolds(input: string, rules: Rules, clean: string -> bool)
    requires (forall s :: clean(rules.jwtPass(s))) && KeptByCut(clean)
    ensures clean(SanitizeText(input, rules))
  {
    var parsed := Parse(input, rules.fmt);
    var output := if parsed.None? then input else Print(Redact(parsed.value, rules));
    CutKeeps(rules.jwtPass(rules.keyValuePass(output)), clean);
  }

  // ... and so does what the first pass makes, where the second keeps it.
  lemma KeyValuePassHolds(input: string, rules: Rules, clean: string -> bool)
    requires (forall s :: clean(rules.keyValuePass(s))) && (forall s :: clean(s) ==> clean(rules.jwtPass(s)))
    requires KeptByCut(clean)
    ensures clean(SanitizeText(input, rules))
  {
    var parsed := Parse(input, rules.fmt);
    var output := if parsed.None? then input else Print(Redact(parsed.value, rules));
    CutKeeps(rules.jwtPass(rules.keyValuePass(output)), clean);
  }

  ghost predicate CleanOutside(r: Json, rules: Rules, clean: string -> bool) {
    match r
    case Obj(entries) =>
      forall i :: 0 <= i < |entries| ==>
        IsSensitiveKey(entries[i].key, rules) || CleanOutside(entries[i].value, rules, clean)
    case Arr(items) => forall i :: 0 <= i < |items| ==> CleanOutside(items[i], rules, clean)
    case Str(text) => clean(text)
    case _ => true
  }

  // What holds of every sanitised text holds of every string outside sensitive keys.
  lemma {:induction false} StringsAreClean(v: Json, rules: Rules, clean: string -> bool)
    requires forall t :: clean(SanitizeText(t, rules))
    ensures CleanOutside(Redact(v, rules), rules, clean)
    decreases v
  {
    match v {
      case Obj(entries) =>
        RedactEntriesAt(entries, rules);
        var r := RedactEntries(entries, rules);
        forall i | 0 <= i < |entries|
          ensures IsSensitiveKey(r[i].key, rules) || CleanOutside(r[i].value, rules, clean)
        {
          StringsAreClean(entries[i].value, rules, clean);
        }
      case Arr(items) =>
        RedactItemsAt(items, rules);
        forall i | 0 <= i < |items| ensures CleanOutside(Redact(items[i], rules), rules, clean) {
          StringsAreClean(items[i], rules, clean);
        }
      case Str(text) =>
        assert clean(SanitizeText(text, rules));
      case _ =>
    }
  }

  // A short text that is not JSON and that both passes leave alone comes out as it went in, and
  // a JSON text as the rewritten tree, printed.
  lemma PlainTextUnchanged(input: string, rules: Rules)
    requires rules.keyValuePass(Visible(input, rules)) == rules.jwtPass(Visible(input, rules)) == Visible(input, rules)
    requires |Encode(Visible(input, rules))| <= 1024
    ensures SanitizeText(input, rules) == Visible(input, rules)
  {
    LenIsByteLength(Visible(input, rules));
  }

  // The text before the passes.
  function Visible(input: string, rules: Rules): string {
    match Parse(input, rules.fmt)
    case None => input
    case Some(v) => Print(Redact(v, rules))
  }

  // ----- What the result looks like -----

  // `r` keeps the shape of `v`: same keys, lengths and scalars; every sensitive key holds
  // the marker; every other string is at most 1038 bytes.
  ghost predicate Sanitized(v: Json, r: Json, rules: Rules)
    decreases v
  {
    match v
    case Obj(entries) =>
      && r.Obj? && |r.entries| == |entries|
      && forall i :: 0 <= i < |entries| ==>
           && r.entries[i].key == entries[i].key
           && if IsSensitiveKey(entries[i].key, rules) then r.entries[i].value == Str("[REDACTED]")
              else Sanitized(entries[i].value, r.entries[i].value, rules)
    case Arr(items) =>
      && r.Arr? && |r.items| == |items|
      && forall i :: 0 <= i < |items| ==> Sanitized(items[i], r.items[i], rules)
    case Str(text) => r.Str? && Len(r.text) <= 1038
    case _ => r == v
  }

  lemma {:induction false} RedactSanitizes(v: Json, rules: Rules)
    ensures Sanitized(v, Redact(v, rules), rules)
    decreases v
  {
    match v {
      case Obj(entries) =>
        RedactEntriesAt(entries, rules);
        forall i | 0 <= i < |entries| && !IsSensitiveKey(entries[i].key, rules)
          ensures Sanitized(entries[i].value, Redact(v, rules).entries[i].value, rules)
        {
          RedactSanitizes(entries[i].value, rules);
        }
      case Arr(items) =>
        RedactItemsAt(items, rules);
        forall i | 0 <= i < |items| ensures Sanitized(items[i], Redact(v, rules).items[i], rules) {
          RedactSanitizes(items[i], rules);
        }
      case Str(text) =>
        var parsed := Parse(text, rules.fmt);
        var output := if parsed.None? then text else Print(Redact(parsed.value, rules));
        TruncatedBound(rules.jwtPass(rules.keyValuePass(output)));
      case _ =>
    }
  }

  // The sanitised tree is one the library could have built, so it prints to a text that
  // parses to it.
  lemma {:induction false} RedactCanonical(v: Json, depth: nat, rules: Rules)
    requires Canonical(v, depth, rules.fmt)
    ensures Canonical(Redact(v, rules), depth, rules.fmt)
    decreases v
  {
    match v {
      case Obj(entries) =>
        RedactEntriesAt(entries, rules);
        var r := RedactEntries(entries, rules);
        forall i | 0 <= i < |entries| ensures Canonical(r[i].value, depth - 1, rules.fmt) {
          RedactCanonical(entries[i].value, depth - 1, rules);
        }
      case Arr(items) =>
        RedactItemsAt(items, rules);
        forall i | 0 <= i < |items| ensures Canonical(Redact(items[i], rules), depth - 1, rules.fmt) {
          RedactCanonical(items[i], depth - 1, rules);
        }
      case _ =>
    }
  }

  lemma RedactedTextParses(text: string, rules: Rules)
    requires PrintsNumbers(rules.fmt) && Parse(text, rules.fmt).Some?
    ensures var r := Redact(Parse(text, rules.fmt).value, rules); Parse(Print(r), rules.fmt) == Some(r)
  {
    var v := Parse(text, rules.fmt).value;
    ParsedIsCanonical(text, rules.fmt);
    RedactCanonical(v, MAX_DEPTH, rules);
    ParsePrint(Redact(v, rules), rules.fmt);
  }

  // ----- Noninterference -----

  // Equal everywhere except under sensitive keys, also inside strings that are JSON texts.
  ghost predicate Agree(v: Json, w: Json, rules: Rules)
    decreases Weight(v), 1, v
  {
    match v
    case Obj(entries) =>
      && w.Obj? && |w.entries| == |entries|
      && forall i :: 0 <= i < |entries| ==>
           && w.entries[i].key == entries[i].key
           && (WeightEntriesBound(entries, i);
               IsSensitiveKey(entries[i].key, rules) || Agree(entries[i].value, w.entries[i].value, rules))
    case Arr(items) =>
      && w.Arr? && |w.items| == |items|
      && forall i :: 0 <= i < |items| ==> (WeightItemsBound(items, i); Agree(items[i], w.items[i], rules))
    case Str(text) => w.Str? && (text == w.text || AgreeTexts(text, w.text, rules))
    case _ => v == w
  }

  ghost predicate AgreeTexts(a: string, b: string, rules: Rules)
    decreases Len(a) + 1, 0, a
  {
    && Parse(a, rules.fmt).Some?
    && Parse(b, rules.fmt).Some?
    && (StringsShorter(a, rules.fmt); Agree(Parse(a, rules.fmt).value, Parse(b, rules.fmt).value, rules))
  }

  lemma {:induction false} Noninterference(v: Json, w: Json, rules: Rules)
    requires Agree(v, w, rules)
    ensures Redact(v, rules) == Redact(w, rules)
    decreases Weight(v), 1, v
  {
    match v {
      case Obj(entries) =>
        RedactEntriesAt(entries, rules);
        RedactEntriesAt(w.entries, rules);
        forall i | 0 <= i < |entries|
          ensures RedactEntry(entries[i], rules) == RedactEntry(w.entries[i], rules)
        {
          WeightEntriesBound(entries, i);
          if !IsSensitiveKey(entries[i].key, rules) {
            Noninterference(entries[i].value, w.entries[i].value, rules);
          }
        }
        assert RedactEntries(entries, rules) == RedactEntries(w.entries, rules);
      case Arr(items) =>
        RedactItemsAt(items, rules);
        RedactItemsAt(w.items, rules);
        forall i | 0 <= i < |items| ensures Redact(items[i], rules) == Redact(w.items[i], rules) {
          WeightItemsBound(items, i);
          Noninterference(items[i], w.items[i], rules);
        }
        assert RedactItems(items, rules) == RedactItems(w.items, rules);
      case Str(text) =>
        if text != w.text {
          TextNoninterference(text, w.text, rules);
        }
      case _ =>
    }
  }

  lemma {:induction false} TextNoninterference(a: string, b: string, rules: Rules)
    requires AgreeTexts(a, b, rules)
    ensures SanitizeText(a, rules) == SanitizeText(b, rules)
    decreases Len(a) + 1, 0, a
  {
    StringsShorter(a, rules.fmt);
    Noninterference(Parse(a, rules.fmt).value, Parse(b, rules.fmt).value, rules);
  }

  // The same for the texts a caller would actually log: two printed values that agree,
  // to any depth of texts within texts, leave the same trace.
  lemma PrintedNoninterference(v: Json, w: Json, rules: Rules)
    requires Canonical(v, MAX_DEPTH, rules.fmt) && Canonical(w, MAX_DEPTH, rules.fmt)
    requires Agree(v, w, rules)
    ensures SanitizeText(Print(v), rules) == SanitizeText(Print(w), rules)
    ensures Redact(Str(Print(v)), rules) == Redact(Str(Print(w)), rules)
  {
    ParsePrint(v, rules.fmt);
    ParsePrint(w, rules.fmt);
    TextNoninterference(Print(v), Print(w), rules);
  }

  // ----- The rewrite as the source runs it: children replaced one at a time -----

  method RedactJsonValue(value: Json, rules: Rules) returns (result: Json)
    ensures result == Redact(value, rules)
    decreases Weight(value), 2, value
  {
    match value {
      case Obj(entries) =>
        var fields := RedactFields(entries, rules);
        result := Obj(fields);
      case Arr(items) =>
        var list := RedactList(items, rules);
        result := Arr(list);
      case Str(text) =>
        var clean := SanitizeSensitiveText(text, rules);
        result := Str(clean);
      case _ =>
        result := value;
    }
  }

  // The loop over `map.iter_mut()`.
  method RedactFields(entries: seq<Entry>, rules: Rules) returns (fields: seq<Entry>)
    ensures fields == RedactEntries(entries, rules)
    decreases WeightEntries(entries), 2, entries
  {
    fields := entries;
    RedactEntriesAt(entries, rules);
    for i := 0 to |entries|
      invariant |fields| == |entries|
      invariant forall j :: 0 <= j < i ==> fields[j] == RedactEntry(entries[j], rules)
      invariant forall j :: i <= j < |entries| ==> fields[j] == entries[j]
    {
      var child := Str(REDACTED);
      if !IsSensitiveKey(fields[i].key, rules) {
        WeightEntriesBound(entries, i);
        child := RedactJsonValue(fields[i].value, rules);
      }
      fields := fields[i := Entry(fields[i].key, child)];
    }
  }

  // The loop over `items.iter_mut()`.
  method RedactList(items: seq<Json>, rules: Rules) returns (list: seq<Json>)
    ensures list == RedactItems(items, rules)
    decreases WeightItems(items), 2, items
  {
    list := items;
    RedactItemsAt(items, rules);
    for i := 0 to |items|
      invariant |list| == |items|
      invariant forall j :: 0 <= j < i ==> list[j] == Redact(items[j], rules)
      invariant forall j :: i <= j < |items| ==> list[j] == items[j]
    {
      WeightItemsBound(items, i);
      var item := RedactJsonValue(list[i], rules);
      list := list[i := item];
    }
  }

  method SanitizeSensitiveText(input: string, rules: Rules) returns (output: string)
    ensures output == SanitizeText(input, rules)
    decreases Len(input) + 1, 0, input
  {
    output := input;
    var parsed := Parse(input, rules.fmt);
    if parsed.Some? {
      StringsShorter(input, rules.fmt);
      var value := RedactJsonValue(parsed.value, rules);
      output := Print(value);
    }
    output := rules.keyValuePass(output);
    output := rules.jwtPass(output);
    var bytes := Encode(output);
    DecodeEncode(output);
    bytes := TruncateSanitizedText(bytes);
    DecodeEncode(Truncated(output));
    output := Decode(bytes).value;
  }
}
