// The treasury picker of nt-cli/src/config.rs: a recency table and a stable sort over it.
module RecentTreasuries {
  import opened Sorting
  import opened Wrappers
  import ByteOrder

  datatype Treasury = Treasury(daoId: string, name: Option<string>)

  datatype Ordering = Less | Equal | Greater

  datatype PickError = NoTreasuries | PromptFailed
  datatype Pick = Picked(id: string) | Failed(error: PickError)

  // Seconds since the epoch, by DAO.
  type Entries = map<string, nat>

  function LastUsedIn(entries: Entries, id: string): Option<nat> {
    if id in entries then Some(entries[id]) else None
  }

  // `cmp` on integers and on strings.
  function CmpNat(x: nat, y: nat): Ordering { if x < y then Less else if x == y then Equal else Greater }
  function CmpStr(a: string, b: string): Ordering {
    if a == b then Equal else if ByteOrder.StrLeq(a, b) then Less else Greater
  }

  // The closure given to `sort_by`.
  function Compare(entries: Entries, a: Treasury, b: Treasury): Ordering {
    match (LastUsedIn(entries, a.daoId), LastUsedIn(entries, b.daoId))
    case (Some(s), Some(t)) => CmpNat(t, s)
    case (Some(_), None) => Less
    case (None, Some(_)) => Greater
    case (None, None) => CmpStr(a.daoId, b.daoId)
  }

  function Recency(entries: Entries): (Treasury, Treasury) -> bool {
    (a: Treasury, b: Treasury) => Compare(entries, a, b) != Greater
  }

  function Opposite(o: Ordering): Ordering {
    match o case Less => Greater case Equal => Equal case Greater => Less
  }

  // What `sort_by` asks of its closure: it answers both ways round alike, and its order is total.
  lemma ComparatorIsSound(entries: Entries)
    ensures forall a, b :: Compare(entries, b, a) == Opposite(Compare(entries, a, b))
    ensures TotalPreorder(Recency(entries))
  {
    ByteOrder.StrLeqIsTotalOrder();
    var leq := Recency(entries);
    forall a, b ensures Compare(entries, b, a) == Opposite(Compare(entries, a, b)) {
    }
    forall a, b, c | leq(a, b) && leq(b, c) ensures leq(a, c) {
    }
  }

  // The order a reader of the list sees, without the comparator.
  ghost predicate UsedFirst(entries: Entries, r: seq<Treasury>) {
    forall i, j :: 0 <= i < j < |r| ==> var a, b := r[i].daoId, r[j].daoId;
      if a in entries then b in entries ==> entries[a] >= entries[b]
      else b !in entries && ByteOrder.StrLeq(a, b)
  }

  // Used before unused, newest first, unused by id, equal times in the order of the API:
  // one list answers to this and it is the sorted one.
  lemma SortedListIs(entries: Entries, listed: seq<Treasury>, r: seq<Treasury>)
    ensures r == Sort(listed, Recency(entries)) <==>
              UsedFirst(entries, r) && multiset(r) == multiset(listed) && SameTies(r, listed, Recency(entries))
  {
    var leq := Recency(entries);
    var s := Sort(listed, leq);
    ComparatorIsSound(entries);
    SortIsStable(listed, leq);
    assert forall q: seq<Treasury> :: Sorted(q, leq) <==> UsedFirst(entries, q) by {
      forall q: seq<Treasury> ensures Sorted(q, leq) <==> UsedFirst(entries, q) {
        SortedMeans(entries, q);
      }
    }
    if Sorted(r, leq) && SameTies(r, listed, leq) {
      forall x ensures Ties(r, x, leq) == Ties(s, x, leq) {
        assert Ties(r, x, leq) == Ties(listed, x, leq) == Ties(s, x, leq);
      }
      StableSortUnique(r, s, leq);
    }
  }

  lemma SortedMeans(entries: Entries, q: seq<Treasury>)
    ensures Sorted(q, Recency(entries)) <==> UsedFirst(entries, q)
  {
    var leq := Recency(entries);
    ByteOrder.StrLeqIsTotalOrder();
    if UsedFirst(entries, q) {
      forall i, j | 0 <= i < j < |q| ensures leq(q[i], q[j]) {
      }
    }
    if Sorted(q, leq) {
      forall i, j | 0 <= i < j < |q|
        ensures var a, b := q[i].daoId, q[j].daoId;
                if a in entries then b in entries ==> entries[a] >= entries[b]
                else b !in entries && ByteOrder.StrLeq(a, b)
      {
        assert leq(q[i], q[j]);
      }
    }
  }

  // ----- What a touch does to the list -----

  // The head of a stable sort is the first of its minima.
  lemma {:induction false} HeadOfSort<T(!new)>(s: seq<T>, leq: (T, T) -> bool) returns (k: nat)
    requires TotalPreorder(leq) && s != []
    ensures k < |s| && Sort(s, leq) != [] && Sort(s, leq)[0] == s[k]
    ensures forall j :: 0 <= j < |s| ==> leq(s[k], s[j])
    ensures forall j :: 0 <= j < k ==> !leq(s[j], s[k])
  {
    if |s| == 1 {
      assert Sort(s[1..], leq) == [];
      return 0;
    }
    var m := HeadOfSort(s[1..], leq);
    assert s[1..][m] == s[m + 1];
    assert forall j :: 1 <= j < |s| ==> s[j] == s[1..][j - 1];
    k := if leq(s[0], s[m + 1]) then 0 else m + 1;
  }

  // Treasury `i` of the list has been used no earlier than `now`, and wins a tie by its place.
  predicate Beats(entries: Entries, listed: seq<Treasury>, i: nat, p: nat, now: nat)
    requires i < |listed|
  {
    var id := listed[i].daoId;
    id in entries && (entries[id] > now || (entries[id] == now && i < p))
  }

  // Touching a listed treasury puts it at the top, unless another one has a later time or the
  // same time and an earlier place in the API's list.
  lemma TouchedIsFirstIff(entries: Entries, listed: seq<Treasury>, p: nat, now: nat)
    requires p < |listed| && forall i :: 0 <= i < p ==> listed[i].daoId != listed[p].daoId
    ensures Sort(listed, Recency(entries[listed[p].daoId := now])) != []
    ensures Sort(listed, Recency(entries[listed[p].daoId := now]))[0].daoId == listed[p].daoId <==>
              forall i :: 0 <= i < |listed| && listed[i].daoId != listed[p].daoId ==> !Beats(entries, listed, i, p, now)
  {
    var id := listed[p].daoId;
    var after := entries[id := now];
    var leq := Recency(after);
    ComparatorIsSound(after);
    var k := HeadOfSort(listed, leq);
    if listed[k].daoId == id {
      forall i | 0 <= i < |listed| && listed[i].daoId != id ensures !Beats(entries, listed, i, p, now) {
        assert leq(listed[k], listed[i]) && (i < k ==> !leq(listed[i], listed[k]));
        assert p <= k;
      }
    } else {
      assert leq(listed[k], listed[p]);
      assert p < k ==> !leq(listed[p], listed[k]);
      assert Beats(entries, listed, k, p, now);
    }
  }

  lemma FirstPlace(listed: seq<Treasury>, id: string) returns (p: nat)
    requires exists t <- listed :: t.daoId == id
    ensures p < |listed| && listed[p].daoId == id && forall i :: 0 <= i < p ==> listed[i].daoId != id
  {
    p := 0;
    while listed[p].daoId != id
      invariant p < |listed| && forall i :: 0 <= i < p ==> listed[i].daoId != id
      decreases |listed| - p
    {
      assert p + 1 == |listed| ==> forall t <- listed :: t.daoId != id;
      p := p + 1;
    }
  }

  lemma TouchedLaterIsFirst(entries: Entries, listed: seq<Treasury>, id: string, now: nat)
    requires (exists t <- listed :: t.daoId == id) && forall k <- entries :: k != id ==> entries[k] < now
    ensures Sort(listed, Recency(entries[id := now])) != []
    ensures Sort(listed, Recency(entries[id := now]))[0].daoId == id
  {
    var p := FirstPlace(listed, id);
    TouchedIsFirstIff(entries, listed, p, now);
  }

  // Two touches within one second: the later one does not come first.
  lemma SameSecondKeepsOrder(now: nat)
    ensures var listed := [Treasury("a", None), Treasury("b", None)];
            var entries: Entries := map["a" := now];
            Sort(listed, Recency(entries["b" := now])) == listed
  {
    var listed := [Treasury("a", None), Treasury("b", None)];
    var entries: Entries := map["a" := now];
    var after := entries["b" := now];
    var leq := Recency(after);
    assert leq(listed[0], listed[1]);
    assert listed[1..] == [listed[1]] && listed[1..][1..] == [];
    assert Sort(listed[1..], leq) == [listed[1]];
    assert Sort(listed, leq) == [listed[0]] + [listed[1]];
  }

  // A run of touches.
  datatype Touch = Touch(id: string, now: nat)

  function Replay(entries: Entries, run: seq<Touch>): Entries {
    if run == [] then entries
    else var last := run[|run| - 1]; Replay(entries, run[..|run| - 1])[last.id := last.now]
  }

  ghost predicate LastTouch(run: seq<Touch>, k: nat) {
    k < |run| && forall m :: k < m < |run| ==> run[m].id != run[k].id
  }

  lemma {:induction false} ReplayKeepsLast(entries: Entries, run: seq<Touch>, k: nat)
    requires LastTouch(run, k)
    ensures LastUsedIn(Replay(entries, run), run[k].id) == Some(run[k].now)
  {
    if k < |run| - 1 {
      ReplayKeepsLast(entries, run[..|run| - 1], k);
    }
  }

  // After any run on a clock that never goes back, treasuries touched in different seconds stand in
  // the reverse of the order of their last touches.
  lemma MostRecentFirst(entries: Entries, run: seq<Touch>, listed: seq<Treasury>, i: nat, j: nat, k: nat, m: nat)
    requires forall x, y :: 0 <= x < y < |run| ==> run[x].now <= run[y].now
    requires LastTouch(run, k) && LastTouch(run, m) && k < m && run[k].now != run[m].now
    ensures var r := Sort(listed, Recency(Replay(entries, run)));
            i < |r| && j < |r| && r[i].daoId == run[m].id && r[j].daoId == run[k].id ==> i < j
  {
    var after := Replay(entries, run);
    var r := Sort(listed, Recency(after));
    ReplayKeepsLast(entries, run, k);
    ReplayKeepsLast(entries, run, m);
    SortedListIs(after, listed, r);
    assert UsedFirst(after, r);
  }

  // ----- Labels -----

  function DisplayName(t: Treasury): string { if t.name.Some? then t.name.value else "Unnamed" }

  function OptionText(t: Treasury): string { t.daoId + " (" + DisplayName(t) + ")" }

  lemma OptionTextExamples()
    ensures OptionText(Treasury("dao.near", Some("Ops"))) == "dao.near (Ops)"
    ensures OptionText(Treasury("dao.near", None)) == "dao.near (Unnamed)"
  {
    assert "dao.near" + " (" + "Ops" + ")" == "dao.near (Ops)";
    assert "dao.near" + " (" + "Unnamed" + ")" == "dao.near (Unnamed)";
  }

  // `split(' ').next()`
  function FirstWord(s: string): string {
    if s == "" || s[0] == ' ' then "" else [s[0]] + FirstWord(s[1..])
  }

  lemma {:induction false} FirstWordIsPrefix(s: string)
    ensures ' ' !in FirstWord(s) && FirstWord(s) <= s
    ensures |FirstWord(s)| < |s| ==> s[|FirstWord(s)|] == ' '
  {
    if s != "" && s[0] != ' ' {
      FirstWordIsPrefix(s[1..]);
      assert s == [s[0]] + s[1..];
    }
  }

  // The chosen text gives the id back exactly when the id has no space.
  lemma OptionTextParses(t: Treasury)
    ensures FirstWord(OptionText(t)) == t.daoId <==> ' ' !in t.daoId
  {
    var s, w := OptionText(t), FirstWord(OptionText(t));
    FirstWordIsPrefix(s);
    assert s[|t.daoId|] == ' ';
    if ' ' !in t.daoId {
      assert forall i :: 0 <= i < |w| ==> s[i] != ' ' by {
        assert forall i :: 0 <= i < |w| ==> s[i] == w[i] && w[i] in w;
      }
      assert forall i :: 0 <= i < |t.daoId| ==> s[i] == t.daoId[i] && t.daoId[i] in t.daoId;
      assert w == s[..|t.daoId|] == t.daoId;
    }
  }

  // Two options read the same only for the same id and the same shown name.
  lemma OptionTextsEqualIff(a: Treasury, b: Treasury)
    requires ' ' !in a.daoId && ' ' !in b.daoId
    ensures OptionText(a) == OptionText(b) <==> a.daoId == b.daoId && DisplayName(a) == DisplayName(b)
  {
    OptionTextParses(a);
    OptionTextParses(b);
    if OptionText(a) == OptionText(b) {
      var n := |a.daoId| + 2;
      var s, t := OptionText(a), OptionText(b);
      assert s[n..|s| - 1] == DisplayName(a) && t[n..|t| - 1] == DisplayName(b);
    }
  }

  class Recent {
    var entries: Entries

    constructor (entries: Entries)
      ensures this.entries == entries
    {
      this.entries := entries;
    }

    method Touch(id: string, now: nat)
      modifies this
      ensures entries == old(entries)[id := now]
    {
      entries := entries[id := now];
    }

    // `chosen` is the place the user picks in the prompt; none when the prompt fails.
    method InputTreasuryId(listed: seq<Treasury>, chosen: Option<nat>) returns (r: Pick)
      requires chosen.Some? ==> listed == [] || chosen.value < |listed|
      ensures r.Failed? <==> listed == [] || chosen.None?
      ensures r.Failed? ==> r.error == if listed == [] then NoTreasuries else PromptFailed
      ensures r.Picked? ==> var sorted := Sort(listed, Recency(entries));
                |sorted| == |listed| && (' ' !in sorted[chosen.value].daoId <==> r.id == sorted[chosen.value].daoId)
      ensures r.Picked? && (forall t <- listed :: ' ' !in t.daoId) ==> exists t <- listed :: t.daoId == r.id
    {
      if listed == [] {
        return Failed(NoTreasuries);
      }
      if chosen.None? {
        return Failed(PromptFailed);
      }
      var sorted := Sort(listed, Recency(entries));
      ComparatorIsSound(entries);
      SortIsStable(listed, Recency(entries));
      assert |sorted| == |multiset(sorted)| == |multiset(listed)| == |listed|;
      assert sorted[chosen.value] in multiset(sorted);
      assert sorted[chosen.value] in listed;
      OptionTextParses(sorted[chosen.value]);
      return Picked(FirstWord(OptionText(sorted[chosen.value])));
    }
  }
}
