// `mergeAvailableNetworks` of nt-fe/components/assets-table.tsx: grouping by source with a
// mutable, insertion-ordered map.
module NetworkMerge {
  import opened Wrappers
  import opened AssetTotals

  datatype Merged = Merged(network: Network, availableRaw: real, isLockupUnlocked: bool)

  function ResidencyName(r: Residency): string {
    match r
    case Near => "Near"
    case Ft => "Ft"
    case Intents => "Intents"
    case Lockup => "Lockup"
    case Staked => "Staked"
  }

  function IsLockupUnlocked(n: Network): bool { n.lockupInstanceId.Some? && n.lockupInstanceId.value != "" }

  function SourceKey(n: Network): string {
    n.network + ":" + (if IsLockupUnlocked(n) then "lockup-unlocked" else ResidencyName(n.residency)) + ":"
    + (if n.contractId.Some? then n.contractId.value else n.id)
  }

  // The kind of a source: an unlocked lockup apart, its residency.
  function Kind(n: Network): string { if IsLockupUnlocked(n) then "lockup-unlocked" else ResidencyName(n.residency) }

  function Contract(n: Network): string { if n.contractId.Some? then n.contractId.value else n.id }

  lemma ColonSplits(a: string, x: string, b: string, y: string)
    requires ':' !in a && ':' !in b && a + (":" + x) == b + (":" + y)
    ensures a == b && x == y
  {
    var s, t := a + (":" + x), b + (":" + y);
    assert s[|a|] == ':' && t[|b|] == ':';
    assert forall i :: 0 <= i < |a| ==> s[i] == a[i] && a[i] in a;
    assert forall i :: 0 <= i < |b| ==> t[i] == b[i] && b[i] in b;
    assert |a| == |b|;
    assert s[..|a|] == a && t[..|b|] == b && s[|a| + 1..] == x && t[|b| + 1..] == y;
  }

  lemma KindPlain(n: Network)
    ensures ':' !in Kind(n)
  {
  }

  lemma KindsDiffer(m: Network, n: Network)
    ensures Kind(m) == Kind(n) <==>
              IsLockupUnlocked(m) == IsLockupUnlocked(n) && (IsLockupUnlocked(m) || m.residency == n.residency)
  {
    assert "lockup-unlocked"[0] == 'l';
    assert "Near"[0] == 'N' && "Ft"[0] == 'F' && "Intents"[0] == 'I' && "Lockup"[0] == 'L' && "Staked"[0] == 'S';
  }

  // Networks share a source exactly when chain, kind and contract agree.
  lemma SourceKeyIff(m: Network, n: Network)
    requires ':' !in m.network && ':' !in n.network
    ensures SourceKey(m) == SourceKey(n) <==>
              && m.network == n.network && Contract(m) == Contract(n)
              && IsLockupUnlocked(m) == IsLockupUnlocked(n) && (IsLockupUnlocked(m) || m.residency == n.residency)
  {
    KindPlain(m);
    KindPlain(n);
    KindsDiffer(m, n);
    assert SourceKey(m) == m.network + (":" + (Kind(m) + (":" + Contract(m))));
    assert SourceKey(n) == n.network + (":" + (Kind(n) + (":" + Contract(n))));
    if SourceKey(m) == SourceKey(n) {
      ColonSplits(m.network, Kind(m) + (":" + Contract(m)), n.network, Kind(n) + (":" + Contract(n)));
      ColonSplits(Kind(m), Contract(m), Kind(n), Contract(n));
    }
  }

  // A chain name with a colon could take another's place.
  lemma ColonCollides(b: Balance)
    ensures var m := Network("", Some("Near:c"), None, "n", Near, b, 0, 1.0);
            var n := Network("", Some("c"), None, "n:Near", Near, b, 0, 1.0);
            SourceKey(m) == SourceKey(n) && m.network != n.network
  {
    assert "n" + ":" + "Near" + ":" + "Near:c" == "n:Near" + ":" + "Near" + ":" + "c";
  }

  function AvailableRaw(): Network -> real { (n: Network) => NetworkAvailableRawForAvailableView(n) }
  function MergedRaw(): Merged -> real { (m: Merged) => m.availableRaw }
  function HasKey(key: string): Network -> bool { (n: Network) => SourceKey(n) == key }

  // The keys of a list in the order in which they first appear.
  function FirstKeys(s: seq<Network>): seq<string> {
    if s == [] then []
    else
      var keys := FirstKeys(s[..|s| - 1]);
      var key := SourceKey(s[|s| - 1]);
      if key in keys then keys else keys + [key]
  }

  lemma {:induction false} FirstKeysDistinct(s: seq<Network>)
    ensures forall i, j :: 0 <= i < j < |FirstKeys(s)| ==> FirstKeys(s)[i] != FirstKeys(s)[j]
    ensures forall key :: key in FirstKeys(s) <==> exists n :: n in s && SourceKey(n) == key
  {
    if s != [] {
      var t := s[..|s| - 1];
      FirstKeysDistinct(t);
      assert s == t + [s[|s| - 1]];
      forall key ensures key in FirstKeys(s) <==> exists n :: n in s && SourceKey(n) == key {
        if key in FirstKeys(t) {
          var n :| n in t && SourceKey(n) == key;
          assert n in s;
        } else if key in FirstKeys(s) {
          assert s[|s| - 1] in s;
        }
      }
    }
  }

  // One row stands for its group: the group's total and its first member.
  ghost predicate Represents(m: Merged, key: string, s: seq<Network>) {
    && m.availableRaw == Sum(Filter(s, HasKey(key)), AvailableRaw())
    && Filter(s, HasKey(key)) != [] && m.network == Filter(s, HasKey(key))[0]
    && m.isLockupUnlocked == IsLockupUnlocked(m.network)
  }

  ghost predicate MergeOf(rows: seq<Merged>, s: seq<Network>) {
    && |rows| == |FirstKeys(s)|
    && forall i :: 0 <= i < |rows| ==> Represents(rows[i], FirstKeys(s)[i], s)
  }

  lemma {:induction false} FilterSnoc(s: seq<Network>, n: Network, p: Network -> bool)
    ensures Filter(s + [n], p) == Filter(s, p) + if p(n) then [n] else []
  {
    var t := s + [n];
    if s == [] {
      assert t == [n] && t[1..] == [];
    } else {
      assert t[0] == s[0] && t[1..] == s[1..] + [n];
      FilterSnoc(s[1..], n, p);
      assert Filter(t, p) == (if p(s[0]) then [s[0]] else []) + Filter(t[1..], p);
    }
  }

  lemma SumSnoc<T>(s: seq<T>, x: T, f: T -> real)
    ensures Sum(s + [x], f) == Sum(s, f) + f(x)
  {
    SumConcat(s, [x], f);
    assert [x][1..] == [];
  }

  lemma RepresentsOther(m: Merged, key: string, s: seq<Network>, n: Network)
    requires Represents(m, key, s) && SourceKey(n) != key
    ensures Represents(m, key, s + [n])
  {
    FilterSnoc(s, n, HasKey(key));
    assert Filter(s + [n], HasKey(key)) == Filter(s, HasKey(key));
  }

  lemma RepresentsMore(m: Merged, s: seq<Network>, n: Network)
    requires Represents(m, SourceKey(n), s)
    ensures Represents(m.(availableRaw := m.availableRaw + AvailableRaw()(n)), SourceKey(n), s + [n])
  {
    FilterSnoc(s, n, HasKey(SourceKey(n)));
    SumSnoc(Filter(s, HasKey(SourceKey(n))), n, AvailableRaw());
  }

  lemma {:induction false} FilterNone(s: seq<Network>, p: Network -> bool)
    requires forall x :: x in s ==> !p(x)
    ensures Filter(s, p) == []
  {
    if s != [] { FilterNone(s[1..], p); }
  }

  lemma RepresentsNew(s: seq<Network>, n: Network)
    requires SourceKey(n) !in FirstKeys(s)
    ensures Represents(Merged(n, AvailableRaw()(n), IsLockupUnlocked(n)), SourceKey(n), s + [n])
  {
    var p := HasKey(SourceKey(n));
    FilterSnoc(s, n, p);
    FirstKeysDistinct(s);
    FilterNone(s, p);
    assert [] + [n] == [n];
  }

  lemma {:induction false} SumUpdate<T>(s: seq<T>, i: nat, x: T, f: T -> real)
    requires i < |s|
    ensures Sum(s[i := x], f) == Sum(s, f) - f(s[i]) + f(x)
  {
    if i == 0 {
      assert s[i := x][1..] == s[1..];
    } else {
      assert s[i := x][1..] == s[1..][i - 1 := x];
      SumUpdate(s[1..], i - 1, x, f);
    }
  }

  // `Map.get`: the entry of a key, by insertion position.
  function Find(keys: seq<string>, key: string): (i: nat)
    ensures i <= |keys|
    ensures i < |keys| ==> keys[i] == key
    ensures i == |keys| ==> key !in keys
  {
    if keys == [] || keys[0] == key then 0 else 1 + Find(keys[1..], key)
  }

  lemma FirstKeysSnoc(s: seq<Network>, n: Network)
    ensures FirstKeys(s + [n]) == if SourceKey(n) in FirstKeys(s) then FirstKeys(s) else FirstKeys(s) + [SourceKey(n)]
  {
    assert (s + [n])[..|s|] == s;
  }

  ghost predicate Merging(keys: seq<string>, rows: seq<Merged>, s: seq<Network>) {
    keys == FirstKeys(s) && MergeOf(rows, s) && Sum(rows, MergedRaw()) == Sum(s, AvailableRaw())
  }

  lemma MergeNothing()
    ensures Merging([], [], [])
  {
  }

  lemma MergeExisting(keys: seq<string>, rows: seq<Merged>, s: seq<Network>, n: Network, at: nat)
    requires Merging(keys, rows, s) && at < |rows| && keys[at] == SourceKey(n)
    ensures Merging(keys, rows[at := rows[at].(availableRaw := rows[at].availableRaw + AvailableRaw()(n))], s + [n])
  {
    SumSnoc(s, n, AvailableRaw());
    FirstKeysSnoc(s, n);
    FirstKeysDistinct(s);
    RepresentsMore(rows[at], s, n);
    forall j | 0 <= j < |rows| && j != at ensures Represents(rows[j], FirstKeys(s)[j], s + [n]) {
      RepresentsOther(rows[j], FirstKeys(s)[j], s, n);
    }
    SumUpdate(rows, at, rows[at].(availableRaw := rows[at].availableRaw + AvailableRaw()(n)), MergedRaw());
  }

  lemma NewRow(rows: seq<Merged>, s: seq<Network>, n: Network)
    requires MergeOf(rows, s) && SourceKey(n) !in FirstKeys(s)
    ensures FirstKeys(s + [n]) == FirstKeys(s) + [SourceKey(n)]
    ensures MergeOf(rows + [Merged(n, AvailableRaw()(n), IsLockupUnlocked(n))], s + [n])
  {
    FirstKeysSnoc(s, n);
    RepresentsNew(s, n);
    forall j | 0 <= j < |rows| ensures Represents(rows[j], FirstKeys(s)[j], s + [n]) {
      assert FirstKeys(s)[j] in FirstKeys(s);
      RepresentsOther(rows[j], FirstKeys(s)[j], s, n);
    }
  }

  lemma MergeNew(keys: seq<string>, rows: seq<Merged>, s: seq<Network>, n: Network)
    requires Merging(keys, rows, s) && SourceKey(n) !in keys
    ensures Merging(keys + [SourceKey(n)], rows + [Merged(n, AvailableRaw()(n), IsLockupUnlocked(n))], s + [n])
  {
    var row := Merged(n, AvailableRaw()(n), IsLockupUnlocked(n));
    SumSnoc(s, n, AvailableRaw());
    SumSnoc(rows, row, MergedRaw());
    NewRow(rows, s, n);
  }

  // One turn of the loop: update the entry of the source in place, or add one at the end.
  method Absorb(keys: seq<string>, rows: seq<Merged>, network: Network, ghost s: seq<Network>)
    returns (newKeys: seq<string>, newRows: seq<Merged>)
    requires Merging(keys, rows, s)
    ensures Merging(newKeys, newRows, s + [network])
  {
    var sourceKey := SourceKey(network);
    var availableRaw := NetworkAvailableRawForAvailableView(network);
    var at := Find(keys, sourceKey);
    if at < |keys| {
      MergeExisting(keys, rows, s, network, at);
      return keys, rows[at := rows[at].(availableRaw := rows[at].availableRaw + availableRaw)];
    } else {
      MergeNew(keys, rows, s, network);
      return keys + [sourceKey], rows + [Merged(network, availableRaw, IsLockupUnlocked(network))];
    }
  }

  // One row per source in order of first appearance, and no amount lost or invented.
  method MergeAvailableNetworks(networks: seq<Network>) returns (rows: seq<Merged>)
    ensures MergeOf(rows, networks)
    ensures Sum(rows, MergedRaw()) == Sum(networks, AvailableRaw())
  {
    var keys: seq<string> := [];
    rows := [];
    MergeNothing();
    for i := 0 to |networks|
      invariant Merging(keys, rows, networks[..i])
    {
      assert networks[..i + 1] == networks[..i] + [networks[i]];
      keys, rows := Absorb(keys, rows, networks[i], networks[..i]);
    }
    assert networks[..|networks|] == networks;
  }

  // The rows are fixed by what they stand for.
  lemma MergeUnique(a: seq<Merged>, b: seq<Merged>, s: seq<Network>)
    requires MergeOf(a, s) && MergeOf(b, s)
    ensures a == b
  {
    forall i | 0 <= i < |a| ensures a[i] == b[i] {
      assert Represents(a[i], FirstKeys(s)[i], s) && Represents(b[i], FirstKeys(s)[i], s);
    }
  }
}
