// Account ids: the schema and the input sanitiser of nt-fe/components/account-id-input.tsx.
module AccountId {

  // ----- Regular expressions -----

  datatype Class = Alnum | Dash | Dot

  datatype Regex = Char(c: Class) | Cat(first: Regex, second: Regex) | Star(body: Regex)

  predicate IsAlnum(c: char) { 'a' <= c <= 'z' || '0' <= c <= '9' }
  predicate IsSeparator(c: char) { c == '-' || c == '_' || c == '.' }

  // a to z, 0 to 9, and the three separators.
  lemma Alphabet(c: char)
    ensures IsAlnum(c) <==> 97 <= c as int <= 122 || 48 <= c as int <= 57
    ensures IsSeparator(c) <==> c as int == 45 || c as int == 95 || c as int == 46
    ensures IsAllowed(c) <==> IsAlnum(c) || IsSeparator(c)
    ensures In(Alnum, c) <==> IsAlnum(c)
    ensures In(Dash, c) || In(Dot, c) <==> IsSeparator(c)
  {
  }

  predicate In(c: Class, x: char) {
    match c case Alnum => IsAlnum(x) case Dash => x == '-' || x == '_' case Dot => x == '.'
  }

  // The language of an expression.
  ghost predicate Matches(r: Regex, s: string)
    decreases r, |s|
  {
    match r
    case Char(c) => |s| == 1 && In(c, s[0])
    case Cat(a, b) => exists k :: 0 <= k <= |s| && Matches(a, s[..k]) && Matches(b, s[k..])
    case Star(a) => s == "" || exists k :: 0 < k <= |s| && Matches(a, s[..k]) && Matches(r, s[k..])
  }

  function Plus(r: Regex): Regex { Cat(r, Star(r)) }

  // [a-z\d]+    [a-z\d]+[\-_]    ([a-z\d]+[\-_])*[a-z\d]+    (([a-z\d]+[\-_])*[a-z\d]+\.)*
  function Word(): Regex { Plus(Char(Alnum)) }
  function Joined(): Regex { Cat(Word(), Char(Dash)) }
  function Label(): Regex { Cat(Star(Joined()), Word()) }
  function Dotted(): Regex { Cat(Star(Joined()), Cat(Word(), Char(Dot))) }

  // (([a-z\d]+[\-_])*[a-z\d]+\.)*([a-z\d]+[\-_])*[a-z\d]+
  function AccountRegex(): Regex { Cat(Star(Dotted()), Label()) }

  lemma CatIntro(a: Regex, b: Regex, x: string, y: string)
    requires Matches(a, x) && Matches(b, y)
    ensures Matches(Cat(a, b), x + y)
  {
    assert (x + y)[..|x|] == x && (x + y)[|x|..] == y;
  }

  lemma StarIntro(a: Regex, x: string, y: string)
    requires Matches(a, x) && x != "" && Matches(Star(a), y)
    ensures Matches(Star(a), x + y)
  {
    assert (x + y)[..|x|] == x && (x + y)[|x|..] == y;
  }

  // ----- The local description -----

  // Allowed characters, no separator first, no two separators together.
  ghost predicate Chain(s: string) {
    && (forall i :: 0 <= i < |s| ==> IsAlnum(s[i]) || IsSeparator(s[i]))
    && (s != "" ==> IsAlnum(s[0]))
    && forall i :: 0 < i < |s| ==> IsAlnum(s[i - 1]) || IsAlnum(s[i])
  }

  ghost predicate Local(s: string) { s != "" && Chain(s) && IsAlnum(s[|s| - 1]) }

  ghost predicate NoDot(s: string) { forall i :: 0 <= i < |s| ==> s[i] != '.' }

  ghost predicate EndsIn(c: Class, s: string) { s != "" && In(c, s[|s| - 1]) }

  lemma ChainConcat(a: string, b: string)
    requires Chain(a) && Chain(b) && a != ""
    ensures Chain(a + b)
  {
    var s := a + b;
    forall i | 0 < i < |s| ensures IsAlnum(s[i - 1]) || IsAlnum(s[i]) {
      if i == |a| { assert s[i] == b[0]; }
    }
  }

  // A dash chain (or nothing) in front of a chain.
  lemma Glue(x: string, y: string)
    requires Chain(y) && y != "" && (x == "" || Chain(x))
    ensures Chain(x + y) && (x + y)[|x| + |y| - 1] == y[|y| - 1]
    ensures NoDot(x) && NoDot(y) ==> NoDot(x + y)
    ensures NoDot(x) && NoDot(y[..|y| - 1]) ==> NoDot((x + y)[..|x| + |y| - 1])
  {
    if x == "" {
      assert x + y == y;
    } else {
      ChainConcat(x, y);
      assert (x + y)[..|x| + |y| - 1] == x + y[..|y| - 1];
    }
  }

  lemma ChainSplit(s: string, k: nat)
    requires Chain(s) && k < |s| && IsSeparator(s[k])
    ensures k > 0 && IsAlnum(s[k - 1]) && Chain(s[..k]) && Chain(s[k + 1..])
  {
    if k + 1 < |s| { assert IsAlnum(s[k + 1 - 1]) || IsAlnum(s[k + 1]); }
    var t := s[k + 1..];
    forall i | 0 < i < |t| ensures IsAlnum(t[i - 1]) || IsAlnum(t[i]) {
      assert IsAlnum(s[k + 1 + i - 1]) || IsAlnum(s[k + 1 + i]);
    }
  }

  // ----- The expression means the description -----

  lemma {:induction false} StarAlnum(s: string)
    ensures Matches(Star(Char(Alnum)), s) <==> forall i :: 0 <= i < |s| ==> IsAlnum(s[i])
    decreases |s|
  {
    if s != "" {
      if Matches(Star(Char(Alnum)), s) {
        var k :| 0 < k <= |s| && Matches(Char(Alnum), s[..k]) && Matches(Star(Char(Alnum)), s[k..]);
        StarAlnum(s[1..]);
        assert forall i :: 1 <= i < |s| ==> s[i] == s[1..][i - 1];
      }
      if forall i :: 0 <= i < |s| ==> IsAlnum(s[i]) {
        StarAlnum(s[1..]);
        assert Matches(Char(Alnum), s[..1]) && Matches(Star(Char(Alnum)), s[1..]);
      }
    }
  }

  lemma WordIff(s: string)
    ensures Matches(Word(), s) <==> s != "" && forall i :: 0 <= i < |s| ==> IsAlnum(s[i])
  {
    if Matches(Word(), s) {
      var k :| 0 <= k <= |s| && Matches(Char(Alnum), s[..k]) && Matches(Star(Char(Alnum)), s[k..]);
      StarAlnum(s[1..]);
      assert forall i :: 1 <= i < |s| ==> s[i] == s[1..][i - 1];
    }
    if s != "" && forall i :: 0 <= i < |s| ==> IsAlnum(s[i]) {
      StarAlnum(s[1..]);
      CatIntro(Char(Alnum), Star(Char(Alnum)), s[..1], s[1..]);
      assert s == s[..1] + s[1..];
    }
  }

  // A word and one more character.
  lemma WordThenIff(c: Class, s: string)
    requires c != Alnum
    ensures Matches(Cat(Word(), Char(c)), s) <==>
            |s| > 1 && In(c, s[|s| - 1]) && forall i :: 0 <= i < |s| - 1 ==> IsAlnum(s[i])
  {
    var n := |s| - 1;
    if Matches(Cat(Word(), Char(c)), s) {
      var k :| 0 <= k <= |s| && Matches(Word(), s[..k]) && Matches(Char(c), s[k..]);
      WordIff(s[..k]);
      assert k == n && s[k..][0] == s[n];
    }
    if |s| > 1 && In(c, s[n]) && forall i :: 0 <= i < n ==> IsAlnum(s[i]) {
      WordIff(s[..n]);
      CatIntro(Word(), Char(c), s[..n], s[n..]);
      assert s == s[..n] + s[n..];
    }
  }

  function First(s: string, dotOnly: bool): (k: nat)
    ensures k <= |s|
    ensures forall i :: 0 <= i < k ==> !(s[i] == '.' || (!dotOnly && IsSeparator(s[i])))
    ensures k < |s| ==> s[k] == '.' || (!dotOnly && IsSeparator(s[k]))
  {
    if s == "" || s[0] == '.' || (!dotOnly && IsSeparator(s[0])) then 0 else 1 + First(s[1..], dotOnly)
  }

  // Words joined by dashes, ending in a dash.
  ghost predicate DashChain(s: string) { Chain(s) && NoDot(s) && EndsIn(Dash, s) }

  lemma DashConcat(x: string, y: string)
    requires DashChain(x) && DashChain(y)
    ensures DashChain(x + y)
  {
    ChainConcat(x, y);
    assert (x + y)[|x + y| - 1] == y[|y| - 1];
  }

  lemma JoinedPiece(x: string)
    requires Matches(Joined(), x)
    ensures DashChain(x)
  {
    WordThenIff(Dash, x);
  }

  lemma {:induction false} JoinedOnly(s: string)
    requires Matches(Star(Joined()), s) && s != ""
    ensures DashChain(s)
    decreases |s|
  {
    var k :| 0 < k <= |s| && Matches(Joined(), s[..k]) && Matches(Star(Joined()), s[k..]);
    JoinedPiece(s[..k]);
    if k < |s| {
      JoinedOnly(s[k..]);
      DashConcat(s[..k], s[k..]);
    }
    assert s == s[..k] + s[k..];
  }

  // The part up to the first separator, and the rest.
  lemma DashSplit(s: string) returns (k: nat)
    requires DashChain(s)
    ensures 0 < k <= |s| && Matches(Joined(), s[..k]) && (k < |s| ==> DashChain(s[k..]))
  {
    var j := First(s, false);
    ChainSplit(s, j);
    k := j + 1;
    WordThenIff(Dash, s[..k]);
    if k < |s| { assert s[k..][|s| - k - 1] == s[|s| - 1]; }
  }

  lemma {:induction false} JoinedAll(s: string)
    requires DashChain(s)
    ensures Matches(Star(Joined()), s)
    decreases |s|
  {
    var k := DashSplit(s);
    if k < |s| { JoinedAll(s[k..]); }
    StarIntro(Joined(), s[..k], s[k..]);
    assert s == s[..k] + s[k..];
  }

  lemma JoinedIff(s: string)
    ensures Matches(Star(Joined()), s) <==> s == "" || DashChain(s)
  {
    if s != "" && Matches(Star(Joined()), s) { JoinedOnly(s); }
    if DashChain(s) { JoinedAll(s); }
  }

  // Dash-joined words that end in a word (and possibly one dot).
  lemma JoinedThenWord(x: string, y: string)
    requires (x == "" || DashChain(x)) && y != "" && forall i :: 0 <= i < |y| ==> IsAlnum(y[i])
    ensures Local(x + y) && NoDot(x + y)
  {
    Glue(x, y);
  }

  lemma LabelOnly(s: string)
    requires Matches(Label(), s)
    ensures Local(s) && NoDot(s)
  {
    var k :| 0 <= k <= |s| && Matches(Star(Joined()), s[..k]) && Matches(Word(), s[k..]);
    JoinedIff(s[..k]);
    WordIff(s[k..]);
    JoinedThenWord(s[..k], s[k..]);
    assert s == s[..k] + s[k..];
  }

  lemma LabelAll(s: string)
    requires Local(s) && NoDot(s)
    ensures Matches(Label(), s)
  {
    var k := LastSeparator(s);
    var x, y := s[..k], s[k..];
    assert s == x + y;
    JoinedIff(x);
    WordIff(y);
    CatIntro(Star(Joined()), Word(), x, y);
  }

  lemma LabelIff(s: string)
    ensures Matches(Label(), s) <==> Local(s) && NoDot(s)
  {
    if Matches(Label(), s) { LabelOnly(s); }
    if Local(s) && NoDot(s) { LabelAll(s); }
  }

  // One past the last separator of `s`.
  lemma {:induction false} LastSeparator(s: string) returns (k: nat)
    requires Chain(s)
    ensures k <= |s| && Chain(s[..k]) && (k > 0 ==> IsSeparator(s[k - 1]))
    ensures forall i :: k <= i < |s| ==> IsAlnum(s[i])
  {
    k := |s|;
    while k > 0 && !IsSeparator(s[k - 1])
      invariant k <= |s| && forall i :: k <= i < |s| ==> IsAlnum(s[i])
    {
      k := k - 1;
    }
  }

  // One dotted part, and a run of them.
  ghost predicate DotPart(s: string) { Chain(s) && EndsIn(Dot, s) && NoDot(s[..|s| - 1]) }
  ghost predicate DotChain(s: string) { Chain(s) && EndsIn(Dot, s) }

  lemma DottedOnly(s: string)
    requires Matches(Dotted(), s)
    ensures DotPart(s)
  {
    var k :| 0 <= k <= |s| && Matches(Star(Joined()), s[..k]) && Matches(Cat(Word(), Char(Dot)), s[k..]);
    WordThenIff(Dot, s[k..]);
    JoinedIff(s[..k]);
    DotPartOf(s[..k], s[k..]);
    assert s == s[..k] + s[k..];
  }

  // A word and a dot, alone or after a dash chain.
  ghost predicate WordDot(y: string) {
    |y| > 1 && y[|y| - 1] == '.' && forall i :: 0 <= i < |y| - 1 ==> IsAlnum(y[i])
  }

  lemma DotPartOf(x: string, y: string)
    requires (x == "" || DashChain(x)) && WordDot(y)
    ensures DotPart(x + y)
  {
    Glue(x, y);
  }

  lemma DotPartSplit(s: string) returns (k: nat)
    requires DotPart(s)
    ensures k <= |s| && (s[..k] == "" || DashChain(s[..k])) && WordDot(s[k..])
  {
    var n := |s| - 1;
    ChainSplit(s, n);
    k := LastSeparator(s[..n]);
    assert s[..n][..k] == s[..k];
    assert k < n;
    var y := s[k..];
    forall i | 0 <= i < |y| - 1 ensures IsAlnum(y[i]) {
      assert y[i] == s[..n][k + i];
    }
  }

  lemma DottedAll(s: string)
    requires DotPart(s)
    ensures Matches(Dotted(), s)
  {
    var k := DotPartSplit(s);
    JoinedIff(s[..k]);
    WordThenIff(Dot, s[k..]);
    CatIntro(Star(Joined()), Cat(Word(), Char(Dot)), s[..k], s[k..]);
    assert s == s[..k] + s[k..];
  }

  lemma {:induction false} DotsOnly(s: string)
    requires Matches(Star(Dotted()), s) && s != ""
    ensures DotChain(s)
    decreases |s|
  {
    var k :| 0 < k <= |s| && Matches(Dotted(), s[..k]) && Matches(Star(Dotted()), s[k..]);
    var x, y := s[..k], s[k..];
    assert s == x + y;
    DottedOnly(x);
    if y != "" {
      DotsOnly(y);
      ChainConcat(x, y);
      assert s[|s| - 1] == y[|y| - 1];
    }
  }

  lemma {:induction false} DotsAll(s: string)
    requires DotChain(s)
    ensures Matches(Star(Dotted()), s)
    decreases |s|
  {
    var k := First(s, true);
    ChainSplit(s, k);
    var x, y := s[..k + 1], s[k + 1..];
    assert x[..k] == s[..k];
    DottedAll(x);
    if y != "" {
      assert y[|y| - 1] == s[|s| - 1];
      DotsAll(y);
    }
    StarIntro(Dotted(), x, y);
    assert s == x + y;
  }

  lemma DotsIff(s: string)
    ensures Matches(Star(Dotted()), s) <==> s == "" || DotChain(s)
  {
    if s != "" && Matches(Star(Dotted()), s) { DotsOnly(s); }
    if DotChain(s) { DotsAll(s); }
  }

  // The nested-star expression accepts exactly the locally described ids.
  lemma RegexIff(s: string)
    ensures Matches(AccountRegex(), s) <==> Local(s)
  {
    if Matches(AccountRegex(), s) { RegexOnly(s); }
    if Local(s) { RegexAll(s); }
  }

  lemma RegexOnly(s: string)
    requires Matches(AccountRegex(), s)
    ensures Local(s)
  {
    var k :| 0 <= k <= |s| && Matches(Star(Dotted()), s[..k]) && Matches(Label(), s[k..]);
    DotsIff(s[..k]);
    LabelIff(s[k..]);
    assert s == s[..k] + s[k..];
    if k > 0 { ChainConcat(s[..k], s[k..]); }
  }

  lemma RegexAll(s: string)
    requires Local(s)
    ensures Matches(AccountRegex(), s)
  {
    var k := LastDot(s);
    DotsIff(s[..k]);
    LabelIff(s[k..]);
    CatIntro(Star(Dotted()), Label(), s[..k], s[k..]);
    assert s == s[..k] + s[k..];
  }

  // One past the last dot of `s`.
  lemma {:induction false} LastDot(s: string) returns (k: nat)
    requires Local(s)
    ensures k < |s| && Chain(s[..k]) && (k > 0 ==> s[k - 1] == '.')
    ensures NoDot(s[k..]) && Local(s[k..])
  {
    k := |s|;
    while k > 0 && s[k - 1] != '.'
      invariant k <= |s| && forall i :: k <= i < |s| ==> s[i] != '.'
    {
      k := k - 1;
    }
    if k > 0 { ChainSplit(s, k - 1); }
  }

  // ----- The schema and the input sanitiser -----

  predicate IsAllowed(c: char) { IsAlnum(c) || IsSeparator(c) }

  function KeepAllowed(s: string): string {
    if s == "" then "" else (if IsAllowed(s[0]) then [s[0]] else "") + KeepAllowed(s[1..])
  }

  // What is typed, in lower case, without other characters, cut to 64; `lower` is the
  // library's `toLowerCase`.
  function Sanitize(input: string, lower: string -> string): string {
    var kept := KeepAllowed(lower(input));
    if |kept| > 64 then kept[..64] else kept
  }

  ghost predicate AllAllowed(s: string) { forall i :: 0 <= i < |s| ==> IsAllowed(s[i]) }

  // Lower-casing leaves text alone that is already made of allowed characters.
  ghost predicate LowerFixes(lower: string -> string) { forall s :: AllAllowed(s) ==> lower(s) == s }

  lemma {:induction false} KeptAllowed(s: string)
    ensures AllAllowed(KeepAllowed(s)) && |KeepAllowed(s)| <= |s|
    ensures AllAllowed(s) ==> KeepAllowed(s) == s
  {
    if s != "" {
      KeptAllowed(s[1..]);
      assert s == [s[0]] + s[1..];
      if AllAllowed(s) {
        assert IsAllowed(s[0]);
        forall i | 0 <= i < |s[1..]| ensures IsAllowed(s[1..][i]) { assert s[1..][i] == s[i + 1]; }
      }
    }
  }

  lemma SanitizedShape(input: string, lower: string -> string)
    ensures AllAllowed(Sanitize(input, lower)) && |Sanitize(input, lower)| <= 64
  {
    KeptAllowed(lower(input));
  }

  // The fixed points are exactly the texts of at most 64 allowed characters.
  lemma SanitizeFixes(s: string, lower: string -> string)
    requires LowerFixes(lower)
    ensures Sanitize(s, lower) == s <==> AllAllowed(s) && |s| <= 64
  {
    SanitizedShape(s, lower);
    if AllAllowed(s) && |s| <= 64 {
      KeptAllowed(s);
      assert lower(s) == s;
    }
  }

  lemma SanitizeTwice(input: string, lower: string -> string)
    requires LowerFixes(lower)
    ensures Sanitize(Sanitize(input, lower), lower) == Sanitize(input, lower)
  {
    SanitizedShape(input, lower);
    SanitizeFixes(Sanitize(input, lower), lower);
  }

  // `exists` is the answer of the account lookup.
  ghost predicate Accepts(s: string, found: bool) { 2 <= |s| <= 64 && Matches(AccountRegex(), s) && found }

  lemma Regroup(a: string, b: string, c: string)
    ensures a + (b + c) == a + b + c
  {
  }

  lemma {:induction false} KeepConcat(a: string, b: string)
    ensures KeepAllowed(a + b) == KeepAllowed(a) + KeepAllowed(b)
  {
    if a == "" {
      assert a + b == b;
    } else {
      var head := if IsAllowed(a[0]) then [a[0]] else "";
      assert (a + b)[1..] == a[1..] + b;
      KeepConcat(a[1..], b);
      Regroup(head, KeepAllowed(a[1..]), KeepAllowed(b));
    }
  }

  lemma KeepDrops(a: string, c: char, b: string)
    requires !IsAllowed(c)
    ensures KeepAllowed(a + ([c] + b)) == KeepAllowed(a + b)
  {
    KeepConcat(a, [c] + b);
    KeepConcat(a, b);
    assert ([c] + b)[1..] == b;
  }

  // A text that is allowed once in lower case comes out in lower case, cut to 64.
  lemma LowerCaseKept(input: string, lower: string -> string)
    requires AllAllowed(lower(input))
    ensures Sanitize(input, lower) == if |lower(input)| <= 64 then lower(input) else lower(input)[..64]
  {
    KeptAllowed(lower(input));
  }

  // A character that is not allowed is dropped, wherever it stands, and nothing else is.
  lemma OthersDropped(a: string, c: char, b: string, lower: string -> string, input: string, plain: string)
    requires lower(input) == a + ([c] + b) && lower(plain) == a + b && !IsAllowed(c)
    ensures Sanitize(input, lower) == Sanitize(plain, lower)
  {
    KeepDrops(a, c, b);
  }

  // So upper case is lowered and a space goes.
  lemma SanitizeExample(lower: string -> string)
    requires lower("A b") == "a b"
    ensures Sanitize("A b", lower) == "ab"
  {
    KeepDrops("a", ' ', "b");
    assert "a" + ([' '] + "b") == "a b" && "a" + "b" == "ab";
    KeptAllowed("ab");
  }

  // The sanitiser never alters an id the schema accepts, and what it lets through is accepted
  // (lookup aside) exactly when it has two characters or more and is locally well formed.
  lemma SanitizerAndSchema(input: string, lower: string -> string)
    requires LowerFixes(lower)
    ensures forall found :: Accepts(input, found) ==> Sanitize(input, lower) == input
    ensures Accepts(Sanitize(input, lower), true) <==> |Sanitize(input, lower)| >= 2 && Local(Sanitize(input, lower))
  {
    RegexIff(input);
    RegexIff(Sanitize(input, lower));
    SanitizedShape(input, lower);
    SanitizeFixes(input, lower);
  }
}
