// The duplicate check of nt-fe/components/member-input.tsx: sort, then compare neighbours.
module Members {
  import opened Sorting

  datatype Member = Member(accountId: string, roles: seq<string>)

  type Order = (string, string) -> bool

  function ByAccount(leq: Order): (Member, Member) -> bool {
    (a: Member, b: Member) => leq(a.accountId, b.accountId)
  }

  ghost predicate SortedIds(s: seq<Member>, leq: Order) {
    forall i, j :: 0 <= i < j < |s| ==> leq(s[i].accountId, s[j].accountId)
  }

  function Ids(s: seq<Member>): set<string> { set m | m in s :: m.accountId }

  ghost predicate HasDuplicate(s: seq<Member>) {
    exists i, j :: 0 <= i < j < |s| && s[i].accountId == s[j].accountId
  }

  // Positions that repeat the id before them.
  function Repeats(s: seq<Member>): seq<nat> {
    if |s| < 2 then []
    else
      var n := |s| - 1;
      Repeats(s[..n]) + if s[n].accountId == s[n - 1].accountId then [n] else []
  }

  predicate IsRepeat(s: seq<Member>, p: nat) { 0 < p < |s| && s[p].accountId == s[p - 1].accountId }

  lemma {:induction false} RepeatsMeaning(s: seq<Member>)
    ensures forall p: nat :: p in Repeats(s) <==> IsRepeat(s, p)
  {
    if |s| >= 2 {
      var n := |s| - 1;
      RepeatsMeaning(s[..n]);
      forall p: nat ensures p in Repeats(s) <==> IsRepeat(s, p) {
        assert p in Repeats(s[..n]) <==> IsRepeat(s[..n], p);
        assert IsRepeat(s[..n], p) <==> p < n && IsRepeat(s, p);
      }
    }
  }

  lemma IdsAt(s: seq<Member>, id: string) returns (i: nat)
    requires id in Ids(s)
    ensures i < |s| && s[i].accountId == id
  {
    var m :| m in s && m.accountId == id;
    i :| 0 <= i < |s| && s[i] == m;
  }

  lemma IdsSnoc(t: seq<Member>, m: Member)
    ensures Ids(t + [m]) == Ids(t) + {m.accountId}
  {
    forall id ensures id in Ids(t + [m]) <==> id in Ids(t) || id == m.accountId {
      if id in Ids(t) {
        var i := IdsAt(t, id);
        assert (t + [m])[i] == t[i];
      }
      assert (t + [m])[|t|] == m;
    }
  }

  lemma IdsSnocCount(t: seq<Member>, m: Member)
    ensures |Ids(t + [m])| == |Ids(t)| + if m.accountId in Ids(t) then 0 else 1
  {
    IdsSnoc(t, m);
    if m.accountId in Ids(t) {
      assert Ids(t) + {m.accountId} == Ids(t);
    }
  }

  lemma RepeatsSnoc(s: seq<Member>)
    requires s != []
    ensures |Repeats(s)| == |Repeats(s[..|s| - 1])| + if IsRepeat(s, |s| - 1) then 1 else 0
  {
  }

  // Member `p` repeats an id that occurs before it.
  predicate RepeatsAbove(data: seq<Member>, p: nat) { p < |data| && data[p].accountId in Ids(data[..p]) }

  // Whoever does repeats the one just before.
  ghost predicate Adjacent(s: seq<Member>) { forall p: nat :: RepeatsAbove(s, p) ==> IsRepeat(s, p) }

  lemma RepeatIsAbove(s: seq<Member>, p: nat)
    requires IsRepeat(s, p)
    ensures RepeatsAbove(s, p)
  {
    assert s[..p][p - 1] == s[p - 1] && s[p - 1] in s[..p];
  }

  lemma PrefixRepeats(s: seq<Member>, n: nat, p: nat)
    requires p < n <= |s|
    ensures RepeatsAbove(s[..n], p) <==> RepeatsAbove(s, p)
    ensures IsRepeat(s[..n], p) <==> IsRepeat(s, p)
  {
    assert s[..n][..p] == s[..p];
  }

  lemma AdjacentSnoc(s: seq<Member>)
    requires s != []
    ensures var n := |s| - 1;
            Adjacent(s) <==> Adjacent(s[..n]) && (RepeatsAbove(s, n) ==> IsRepeat(s, n))
  {
    var n := |s| - 1;
    forall p: nat
      ensures RepeatsAbove(s[..n], p) <==> p < n && RepeatsAbove(s, p)
      ensures IsRepeat(s[..n], p) <==> p < n && IsRepeat(s, p)
    {
      if p < n { PrefixRepeats(s, n, p); }
    }
  }

  lemma LastCount(s: seq<Member>)
    requires s != []
    ensures |Ids(s)| == |Ids(s[..|s| - 1])| + if RepeatsAbove(s, |s| - 1) then 0 else 1
  {
    var n := |s| - 1;
    assert s == s[..n] + [s[n]];
    IdsSnocCount(s[..n], s[n]);
  }

  // Repeats never exceed the members beyond the first of each id, and reach them exactly there.
  lemma {:induction false} CountIds(s: seq<Member>)
    ensures |Repeats(s)| + |Ids(s)| <= |s|
    ensures |Repeats(s)| + |Ids(s)| == |s| <==> Adjacent(s)
  {
    if s == [] {
      assert Ids(s) == {};
    } else {
      var n := |s| - 1;
      CountIds(s[..n]);
      RepeatsSnoc(s);
      AdjacentSnoc(s);
      LastCount(s);
      if IsRepeat(s, n) { RepeatIsAbove(s, n); }
    }
  }

  // Equal ids stand together.
  ghost predicate Together(t: seq<Member>) {
    forall i, k, j :: 0 <= i < k < j < |t| && t[i].accountId == t[j].accountId ==> t[k].accountId == t[i].accountId
  }

  lemma AdjacentIff(s: seq<Member>)
    ensures Adjacent(s) <==> Together(s)
  {
    if Together(s) {
      forall n: nat | RepeatsAbove(s, n) ensures IsRepeat(s, n) {
        var i := IdsAt(s[..n], s[n].accountId);
        assert s[i].accountId == s[n].accountId;
      }
    }
    if Adjacent(s) {
      forall i, j | 0 <= i < j < |s| && s[i].accountId == s[j].accountId ensures s[j - 1].accountId == s[j].accountId {
        SeenNextBefore(s, i, j);
      }
      forall i, k, j | 0 <= i < k < j < |s| && s[i].accountId == s[j].accountId
        ensures s[k].accountId == s[i].accountId
      {
        AdjacentBack(s, i, k, j);
      }
    }
  }

  lemma SeenNextBefore(s: seq<Member>, i: nat, j: nat)
    requires Adjacent(s) && i < j < |s| && s[i].accountId == s[j].accountId
    ensures s[j - 1].accountId == s[j].accountId
  {
    assert s[..j][i] == s[i] && s[i] in s[..j];
    assert RepeatsAbove(s, j);
  }

  ghost predicate NextBefore(s: seq<Member>) {
    forall i, j :: 0 <= i < j < |s| && s[i].accountId == s[j].accountId ==> s[j - 1].accountId == s[j].accountId
  }

  lemma {:induction false} AdjacentBack(s: seq<Member>, i: nat, k: nat, j: nat)
    requires NextBefore(s) && i <= k <= j < |s| && s[i].accountId == s[j].accountId
    ensures s[k].accountId == s[i].accountId
    decreases j
  {
    if k < j { AdjacentBack(s, i, k, j - 1); }
  }

  // ----- Ties of the order -----

  // Equal ids stand together among the members that tie with them.
  ghost predicate GroupedTies(data: seq<Member>, leq: Order) {
    forall x :: Together(Ties(data, x, ByAccount(leq)))
  }

  // Places `a` to `b` are those of the members that tie with `x`.
  ghost predicate TiesAt(s: seq<Member>, x: Member, cmp: (Member, Member) -> bool, a: nat, b: nat) {
    a <= b <= |s| && forall i :: 0 <= i < |s| ==> (a <= i < b <==> Tied(x, s[i], cmp))
  }

  lemma TiedBetween(s: seq<Member>, x: Member, cmp: (Member, Member) -> bool, m: nat)
    requires TotalPreorder(cmp) && Sorted(s, cmp) && 1 <= m < |s| && Tied(x, s[0], cmp) && Tied(x, s[m], cmp)
    ensures Tied(x, s[1], cmp)
  {
    if m > 1 {
      assert cmp(s[0], s[1]) && cmp(s[1], s[m]);
    }
  }

  lemma TiesAtHead(s: seq<Member>, x: Member, cmp: (Member, Member) -> bool, c: nat, d: nat)
    requires TotalPreorder(cmp) && Sorted(s, cmp) && s != [] && Tied(x, s[0], cmp) && TiesAt(s[1..], x, cmp, c, d)
    ensures c == 0 || c == d
  {
    if c < d {
      assert s[1..][c] == s[c + 1] && s[1..][0] == s[1];
      TiedBetween(s, x, cmp, c + 1);
    }
  }

  lemma SliceShift<T>(s: seq<T>, c: nat, d: nat)
    requires c <= d < |s|
    ensures s[c + 1..d + 1] == s[1..][c..d] && s[0..d + 1] == [s[0]] + s[1..][0..d]
  {
  }

  lemma TiesAtCons(s: seq<Member>, x: Member, cmp: (Member, Member) -> bool, c: nat, d: nat)
    requires s != [] && TiesAt(s[1..], x, cmp, c, d)
    ensures !Tied(x, s[0], cmp) ==> TiesAt(s, x, cmp, c + 1, d + 1)
    ensures Tied(x, s[0], cmp) && c == 0 ==> TiesAt(s, x, cmp, 0, d + 1)
    ensures Tied(x, s[0], cmp) && c == d ==> TiesAt(s, x, cmp, 0, 1)
  {
    assert forall i :: 1 <= i < |s| ==> s[i] == s[1..][i - 1];
  }

  lemma TiesCut(s: seq<Member>, x: Member, cmp: (Member, Member) -> bool, c: nat, d: nat)
    requires c <= d < |s| && Ties(s[1..], x, cmp) == s[1..][c..d]
    ensures !Tied(x, s[0], cmp) ==> Ties(s, x, cmp) == s[c + 1..d + 1]
    ensures Tied(x, s[0], cmp) && c == 0 ==> Ties(s, x, cmp) == s[0..d + 1]
    ensures Tied(x, s[0], cmp) && c == d ==> Ties(s, x, cmp) == s[0..1]
  {
    SliceShift(s, c, d);
  }

  // In a sorted list they are a slice.
  lemma {:induction false} TiesSlice(s: seq<Member>, x: Member, cmp: (Member, Member) -> bool) returns (a: nat, b: nat)
    requires TotalPreorder(cmp) && Sorted(s, cmp)
    ensures TiesAt(s, x, cmp, a, b) && Ties(s, x, cmp) == s[a..b]
  {
    if s == [] { return 0, 0; }
    var c, d := TiesSlice(s[1..], x, cmp);
    TiesAtCons(s, x, cmp, c, d);
    TiesCut(s, x, cmp, c, d);
    if !Tied(x, s[0], cmp) { return c + 1, d + 1; }
    TiesAtHead(s, x, cmp, c, d);
    a, b := 0, if c == d then 1 else d + 1;
  }

  lemma SortedTogetherIff(s: seq<Member>, leq: Order)
    requires TotalPreorder(leq) && SortedIds(s, leq)
    ensures Together(s) <==> GroupedTies(s, leq)
  {
    var cmp := ByAccount(leq);
    ByAccountPreorder(leq);
    if Together(s) {
      forall x ensures Together(Ties(s, x, cmp)) {
        var a, b := TiesSlice(s, x, cmp);
        assert forall i :: 0 <= i < b - a ==> s[a..b][i] == s[a + i];
      }
    }
    if GroupedTies(s, leq) {
      forall i, k, j | 0 <= i < k < j < |s| && s[i].accountId == s[j].accountId
        ensures s[k].accountId == s[i].accountId
      {
        var a, b := TiesSlice(s, s[i], cmp);
        assert leq(s[i].accountId, s[k].accountId) && leq(s[k].accountId, s[j].accountId);
        assert leq(s[i].accountId, s[i].accountId);
        var t := s[a..b];
        assert t == Ties(s, s[i], cmp);
        assert t[i - a] == s[i] && t[k - a] == s[k] && t[j - a] == s[j];
      }
    }
  }

  lemma TiesTogether(data: seq<Member>, leq: Order)
    requires TotalOrder(leq)
    ensures GroupedTies(data, leq)
  {
    forall x ensures Together(Ties(data, x, ByAccount(leq))) {
      var t := Ties(data, x, ByAccount(leq));
      TiesOnly(data, x, ByAccount(leq));
      assert forall i :: 0 <= i < |t| ==> t[i] in t;
      assert forall i :: 0 <= i < |t| ==> t[i].accountId == x.accountId;
    }
  }

  lemma DuplicateSnoc(t: seq<Member>, m: Member)
    ensures HasDuplicate(t + [m]) <==> HasDuplicate(t) || m.accountId in Ids(t)
  {
    var s := t + [m];
    if HasDuplicate(t) {
      var i, j :| 0 <= i < j < |t| && t[i].accountId == t[j].accountId;
      assert s[i].accountId == s[j].accountId;
    }
    if m.accountId in Ids(t) {
      var i := IdsAt(t, m.accountId);
      assert s[i].accountId == s[|t|].accountId;
    }
    if HasDuplicate(s) {
      var i, j :| 0 <= i < j < |s| && s[i].accountId == s[j].accountId;
      assert t[i] in t;
      if j < |t| { assert t[i].accountId == t[j].accountId; }
    }
  }

  lemma {:induction false} DistinctIds(s: seq<Member>)
    ensures |Ids(s)| <= |s| && (|Ids(s)| == |s| <==> !HasDuplicate(s))
  {
    if s == [] {
      assert Ids(s) == {};
    } else {
      var t, m := s[..|s| - 1], s[|s| - 1];
      assert s == t + [m];
      DistinctIds(t);
      IdsSnoc(t, m);
      DuplicateSnoc(t, m);
      assert m.accountId in Ids(t) ==> Ids(s) == Ids(t);
    }
  }

  lemma SameMembers(a: seq<Member>, b: seq<Member>)
    requires multiset(a) == multiset(b)
    ensures |a| == |b| && Ids(a) == Ids(b)
  {
    assert |a| == |multiset(a)| && |b| == |multiset(b)|;
    forall m ensures m in a <==> m in b {
      assert m in multiset(a) <==> m in multiset(b);
    }
  }

  lemma ByAccountPreorder(leq: Order)
    requires TotalPreorder(leq)
    ensures TotalPreorder(ByAccount(leq))
  {
    var cmp := ByAccount(leq);
    forall x, y ensures cmp(x, y) || cmp(y, x) {
      assert leq(x.accountId, y.accountId) || leq(y.accountId, x.accountId);
    }
    forall x, y, z | cmp(x, y) && cmp(y, z) ensures cmp(x, z) {
      assert leq(x.accountId, y.accountId) && leq(y.accountId, z.accountId);
    }
  }

  lemma SortedMembers(data: seq<Member>, leq: Order)
    requires TotalPreorder(leq)
    ensures var s := Sort(data, ByAccount(leq));
            && |s| == |data| && Ids(s) == Ids(data) && SortedIds(s, leq)
            && (Adjacent(s) <==> GroupedTies(data, leq))
  {
    var s := Sort(data, ByAccount(leq));
    ByAccountPreorder(leq);
    SortIsStable(data, ByAccount(leq));
    forall i, j | 0 <= i < j < |s| ensures leq(s[i].accountId, s[j].accountId) {
      assert ByAccount(leq)(s[i], s[j]);
    }
    SameMembers(data, s);
    AdjacentIff(s);
    SortedTogetherIff(s, leq);
    GroupedAlike(data, s, leq);
  }

  lemma GroupedAlike(a: seq<Member>, b: seq<Member>, leq: Order)
    requires SameTies(b, a, ByAccount(leq))
    ensures GroupedTies(a, leq) <==> GroupedTies(b, leq)
  {
    assert forall x :: Ties(b, x, ByAccount(leq)) == Ties(a, x, ByAccount(leq));
  }

  // As many issues as members beyond the first of each id, exactly when equal ids stand
  // together among their ties; never more.
  lemma IssuesCount(data: seq<Member>, leq: Order)
    requires TotalPreorder(leq)
    ensures |Repeats(Sort(data, ByAccount(leq)))| <= |data| - |Ids(data)|
    ensures |Repeats(Sort(data, ByAccount(leq)))| == |data| - |Ids(data)| <==> GroupedTies(data, leq)
    ensures Repeats(Sort(data, ByAccount(leq))) != [] ==> HasDuplicate(data)
    ensures GroupedTies(data, leq) && HasDuplicate(data) ==> Repeats(Sort(data, ByAccount(leq))) != []
    ensures TotalOrder(leq) ==> GroupedTies(data, leq)
  {
    SortedMembers(data, leq);
    CountIds(Sort(data, ByAccount(leq)));
    DistinctIds(data);
    if TotalOrder(leq) { TiesTogether(data, leq); }
  }

  // Where `a-b` and `ab` compare equal, a duplicate gets no issue.
  lemma DuplicateMissed(leq: Order)
    requires TotalPreorder(leq) && leq("a-b", "ab") && leq("ab", "a-b")
    ensures var data := [Member("a-b", []), Member("ab", []), Member("a-b", [])];
            HasDuplicate(data) && Repeats(Sort(data, ByAccount(leq))) == []
  {
    var a, b, cmp := Member("a-b", []), Member("ab", []), ByAccount(leq);
    assert leq("a-b", "a-b");
    assert [a, b, a][1..] == [b, a] && [b, a][1..] == [a] && [a][1..] == [];
    assert Sort([a], cmp) == [a];
    assert Sort([b, a], cmp) == [b, a];
    assert Sort([a, b, a], cmp) == [a, b, a];
    assert [a, b, a][0].accountId == [a, b, a][2].accountId;
    assert a.accountId != b.accountId;
    assert [a, b, a][..2] == [a, b] && [a, b][..1] == [a];
    assert Repeats([a, b]) == Repeats([a]) + [] && Repeats([a]) == [];
    assert Repeats([a, b, a]) == Repeats([a, b]) + [];
  }

  // ----- The rows the issues are shown on -----

  lemma PrefixCount(s: seq<Member>, p: nat)
    requires p < |s|
    ensures |Ids(s[..p + 1])| == |Ids(s[..p])| + if RepeatsAbove(s, p) then 0 else 1
  {
    assert s[..p + 1][..p] == s[..p];
    LastCount(s[..p + 1]);
  }

  // The first `n` rows hold as many ids as the first `n` of the sorted list.
  ghost predicate SameCounts(data: seq<Member>, s: seq<Member>) {
    forall n :: 0 <= n <= |data| && n <= |s| ==> |Ids(data[..n])| == |Ids(s[..n])|
  }

  lemma {:induction false} SameCountsUpTo(data: seq<Member>, s: seq<Member>, n: nat)
    requires n <= |data| == |s| && forall p :: 0 <= p < n ==> (RepeatsAbove(data, p) <==> RepeatsAbove(s, p))
    ensures |Ids(data[..n])| == |Ids(s[..n])|
  {
    if n > 0 {
      SameCountsUpTo(data, s, n - 1);
      PrefixCount(data, n - 1);
      PrefixCount(s, n - 1);
    } else {
      assert Ids(data[..0]) == {} && Ids(s[..0]) == {};
    }
  }

  // Issues, placed by the sorted list `s`, mark the form rows that repeat an id above them.
  ghost predicate OnTheirRows(data: seq<Member>, s: seq<Member>) {
    forall p: nat :: p in Repeats(s) <==> RepeatsAbove(data, p)
  }

  lemma {:induction false} RepeatsUpTo(data: seq<Member>, s: seq<Member>, n: nat)
    requires n <= |data| == |s| && forall p: nat :: p < n ==> (IsRepeat(s, p) <==> RepeatsAbove(data, p))
    ensures |Repeats(s[..n])| == n - |Ids(data[..n])|
  {
    if n > 0 {
      RepeatsUpTo(data, s, n - 1);
      assert s[..n][..n - 1] == s[..n - 1];
      RepeatsSnoc(s[..n]);
      PrefixRepeats(s, n, n - 1);
      PrefixCount(data, n - 1);
    } else {
      assert Ids(data[..0]) == {};
    }
  }

  lemma OnTheirRowsCount(data: seq<Member>, s: seq<Member>)
    requires |data| == |s| && OnTheirRows(data, s)
    ensures |Repeats(s)| == |data| - |Ids(data)|
  {
    RepeatsMeaning(s);
    forall p: nat | p < |s| ensures IsRepeat(s, p) <==> RepeatsAbove(data, p) {
      assert p in Repeats(s) <==> RepeatsAbove(data, p);
    }
    RepeatsUpTo(data, s, |s|);
    assert s[..|s|] == s && data[..|s|] == data;
  }

  lemma AdjacentRowsIff(data: seq<Member>, s: seq<Member>)
    requires |data| == |s| && Adjacent(s)
    ensures OnTheirRows(data, s) <==> SameCounts(data, s)
  {
    RepeatsMeaning(s);
    forall p: nat ensures p in Repeats(s) <==> RepeatsAbove(s, p) {
      if IsRepeat(s, p) { RepeatIsAbove(s, p); }
    }
    if OnTheirRows(data, s) {
      forall n | 0 <= n <= |data| ensures |Ids(data[..n])| == |Ids(s[..n])| {
        forall p | 0 <= p < n ensures RepeatsAbove(data, p) <==> RepeatsAbove(s, p) {
          assert p in Repeats(s) <==> RepeatsAbove(data, p);
        }
        SameCountsUpTo(data, s, n);
      }
    }
    if SameCounts(data, s) {
      forall p: nat ensures p in Repeats(s) <==> RepeatsAbove(data, p) {
        if p < |data| {
          assert |Ids(data[..p])| == |Ids(s[..p])| && |Ids(data[..p + 1])| == |Ids(s[..p + 1])|;
          PrefixCount(data, p);
          PrefixCount(s, p);
        }
      }
    }
  }

  // They do exactly when equal ids stand together among their ties and each prefix holds as
  // many ids in the user's order as in the sorted one.
  lemma IssuesOnTheirRowsIff(data: seq<Member>, leq: Order)
    requires TotalPreorder(leq)
    ensures var s := Sort(data, ByAccount(leq)); OnTheirRows(data, s) <==> GroupedTies(data, leq) && SameCounts(data, s)
  {
    var s := Sort(data, ByAccount(leq));
    SortedMembers(data, leq);
    if OnTheirRows(data, s) {
      OnTheirRowsCount(data, s);
      IssuesCount(data, leq);
    }
    if Adjacent(s) { AdjacentRowsIff(data, s); }
  }

  // In a form already in order the first condition is enough.
  lemma OrderedFormIff(data: seq<Member>, leq: Order)
    requires TotalPreorder(leq) && SortedIds(data, leq)
    ensures OnTheirRows(data, Sort(data, ByAccount(leq))) <==> GroupedTies(data, leq)
  {
    ByAccountPreorder(leq);
    SortIsStable(data, ByAccount(leq));
    StableSortUnique(Sort(data, ByAccount(leq)), data, ByAccount(leq));
    IssuesOnTheirRowsIff(data, leq);
  }

  // Of rows a, b, a the second gets the issue, which repeats nothing; the third gets none.
  lemma IssueOnWrongRow(leq: Order)
    requires TotalOrder(leq) && leq("a", "b")
    ensures var data := [Member("a", []), Member("b", []), Member("a", [])];
            && Repeats(Sort(data, ByAccount(leq))) == [1]
            && !RepeatsAbove(data, 1) && RepeatsAbove(data, 2)
  {
    var a, b, cmp := Member("a", []), Member("b", []), ByAccount(leq);
    assert !leq("b", "a") && leq("a", "a");
    assert [a, b, a][1..] == [b, a] && [b, a][1..] == [a] && [a][1..] == [];
    assert Sort([a], cmp) == [a];
    assert Sort([b, a], cmp) == [a] + Insert(b, [], cmp);
    assert Sort([a, b, a], cmp) == [a, a, b];
    assert [a, a, b][..2] == [a, a] && [a, a][..1] == [a];
    assert Repeats([a, a]) == Repeats([a]) + [1];
    assert Repeats([a, a, b]) == Repeats([a, a]) + [];
    assert [a, b, a][..1] == [a] && [a, b, a][..2] == [a, b];
    assert a in [a, b] && Ids([a, b]) == {"a", "b"} && Ids([a]) == {"a"};
  }

  // The loop over the sorted members; an issue is the position it is attached to.
  method AddIssues(sortedData: seq<Member>) returns (issues: seq<nat>)
    ensures issues == Repeats(sortedData)
  {
    issues := [];
    for index := 0 to |sortedData|
      invariant issues == Repeats(sortedData[..if index < |sortedData| then index + 1 else index])
    {
      if index < |sortedData| - 1 {
        assert sortedData[..index + 2][..index + 1] == sortedData[..index + 1];
        if sortedData[index].accountId == sortedData[index + 1].accountId {
          issues := issues + [index + 1];
        }
      }
    }
    assert sortedData[..|sortedData|] == sortedData;
  }

  // `Array.prototype.sort` on the members.
  method SortInPlace(data: array<Member>, leq: Order)
    requires TotalPreorder(leq)
    modifies data
    ensures data[..] == Sort(old(data[..]), ByAccount(leq))
  {
    var sorted := Sort(data[..], ByAccount(leq));
    ByAccountPreorder(leq);
    SortIsStable(data[..], ByAccount(leq));
    assert |sorted| == |multiset(sorted)| == |multiset(data[..])| == data.Length;
    for i := 0 to data.Length
      invariant data[..i] == sorted[..i]
    {
      data[i] := sorted[i];
    }
    assert data[..data.Length] == data[..] && sorted[..data.Length] == sorted;
  }

  // `superRefine`: sorts its argument in place, then reports; the positions are those of the
  // sorted list.
  method SuperRefine(data: array<Member>, leq: Order) returns (issues: seq<nat>)
    requires TotalPreorder(leq)
    modifies data
    ensures data[..] == Sort(old(data[..]), ByAccount(leq))
    ensures forall p: nat :: p in issues <==> IsRepeat(data[..], p)
    ensures |issues| == data.Length - |Ids(old(data[..]))| <==> GroupedTies(old(data[..]), leq)
    ensures issues != [] ==> HasDuplicate(old(data[..]))
    ensures GroupedTies(old(data[..]), leq) && HasDuplicate(old(data[..])) ==> issues != []
    ensures TotalOrder(leq) ==> GroupedTies(old(data[..]), leq)
  {
    IssuesCount(data[..], leq);
    SortInPlace(data, leq);
    RepeatsMeaning(data[..]);
    issues := AddIssues(data[..]);
  }
}
