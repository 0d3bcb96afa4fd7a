// Stable sorting by a comparator, as `Array.prototype.sort` and `slice::sort_by`
// provide it.  Any list that is ordered, a permutation, and keeps the order of ties
// equals `Sort`, so a caller needs to know nothing else about the library routine.
module Sorting {

  ghost predicate TotalPreorder<T(!new)>(leq: (T, T) -> bool) {
    && (forall x, y :: leq(x, y) || leq(y, x))
    && (forall x, y, z :: leq(x, y) && leq(y, z) ==> leq(x, z))
  }

  ghost predicate TotalOrder<T(!new)>(leq: (T, T) -> bool) {
    TotalPreorder(leq) && forall x, y :: leq(x, y) && leq(y, x) ==> x == y
  }

  ghost predicate Sorted<T>(s: seq<T>, leq: (T, T) -> bool) {
    forall i, j :: 0 <= i < j < |s| ==> leq(s[i], s[j])
  }

  ghost predicate Distinct<T>(s: seq<T>) {
    forall i, j :: 0 <= i < j < |s| ==> s[i] != s[j]
  }

  // The elements of `s` that tie with `x`, in their order in `s`.
  function Ties<T>(s: seq<T>, x: T, leq: (T, T) -> bool): seq<T> {
    if s == [] then []
    else (if leq(x, s[0]) && leq(s[0], x) then [s[0]] else []) + Ties(s[1..], x, leq)
  }

  // Ties appear in the same order in both lists.
  ghost predicate SameTies<T(!new)>(a: seq<T>, b: seq<T>, leq: (T, T) -> bool) {
    forall x :: Ties(a, x, leq) == Ties(b, x, leq)
  }

  ghost predicate IsStableSortOf<T(!new)>(r: seq<T>, s: seq<T>, leq: (T, T) -> bool) {
    Sorted(r, leq) && multiset(r) == multiset(s) && SameTies(r, s, leq)
  }

  function Insert<T>(x: T, s: seq<T>, leq: (T, T) -> bool): seq<T> {
    if s == [] then [x]
    else if leq(x, s[0]) then [x] + s
    else [s[0]] + Insert(x, s[1..], leq)
  }

  function Sort<T>(s: seq<T>, leq: (T, T) -> bool): seq<T> {
    if s == [] then [] else Insert(s[0], Sort(s[1..], leq), leq)
  }

  lemma {:induction false} InsertMultiset<T>(x: T, s: seq<T>, leq: (T, T) -> bool)
    ensures multiset(Insert(x, s, leq)) == multiset{x} + multiset(s)
  {
    if s != [] {
      assert s == [s[0]] + s[1..];
      InsertMultiset(x, s[1..], leq);
    }
  }

  lemma {:induction false} InsertSorted<T(!new)>(x: T, s: seq<T>, leq: (T, T) -> bool)
    requires TotalPreorder(leq) && Sorted(s, leq)
    ensures Sorted(Insert(x, s, leq), leq)
  {
    if s != [] && !leq(x, s[0]) {
      InsertSorted(x, s[1..], leq);
      InsertMultiset(x, s[1..], leq);
      var t := Insert(x, s[1..], leq);
      forall j | 0 <= j < |t| ensures leq(s[0], t[j]) {
        assert t[j] in multiset(t);
        assert t[j] == x || t[j] in s[1..];
      }
    }
  }

  lemma TiesCons<T>(x: T, s: seq<T>, y: T, leq: (T, T) -> bool)
    ensures Ties([x] + s, y, leq) == (if leq(y, x) && leq(x, y) then [x] else []) + Ties(s, y, leq)
  {
    assert ([x] + s)[1..] == s;
  }

  predicate Tied<T>(x: T, y: T, leq: (T, T) -> bool) { leq(x, y) && leq(y, x) }

  // Whatever `x` is inserted behind does not tie with the same things as `x`.
  ghost predicate Apart<T>(x: T, s: seq<T>, y: T, leq: (T, T) -> bool) {
    forall i :: 0 <= i < |s| && !leq(x, s[i]) ==> !(Tied(y, x, leq) && Tied(y, s[i], leq))
  }

  lemma PreorderApart<T(!new)>(x: T, s: seq<T>, y: T, leq: (T, T) -> bool)
    requires TotalPreorder(leq)
    ensures Apart(x, s, y, leq)
  {
  }

  lemma {:induction false} InsertTies<T>(x: T, s: seq<T>, y: T, leq: (T, T) -> bool)
    requires Apart(x, s, y, leq)
    ensures Ties(Insert(x, s, leq), y, leq) == Ties([x] + s, y, leq)
  {
    if s != [] && !leq(x, s[0]) {
      InsertTies(x, s[1..], y, leq);
      TiesCons(s[0], Insert(x, s[1..], leq), y, leq);
      TiesCons(x, s[1..], y, leq);
      TiesCons(x, s, y, leq);
      assert !(Tied(y, x, leq) && Tied(y, s[0], leq));
    }
  }

  lemma {:induction false} SortIsStable<T(!new)>(s: seq<T>, leq: (T, T) -> bool)
    requires TotalPreorder(leq)
    ensures IsStableSortOf(Sort(s, leq), s, leq)
  {
    if s != [] {
      SortIsStable(s[1..], leq);
      var t := Sort(s[1..], leq);
      InsertSorted(s[0], t, leq);
      InsertMultiset(s[0], t, leq);
      assert s == [s[0]] + s[1..];
      forall y ensures Ties(Sort(s, leq), y, leq) == Ties(s, y, leq) {
        PreorderApart(s[0], t, y, leq);
        InsertTies(s[0], t, y, leq);
        TiesCons(s[0], t, y, leq);
      }
    }
  }

  lemma {:induction false} TiesMembers<T(!new)>(s: seq<T>, x: T, leq: (T, T) -> bool)
    requires TotalPreorder(leq)
    ensures x in s ==> x in Ties(s, x, leq)
    ensures Ties(s, x, leq) != [] ==> exists i :: 0 <= i < |s| && leq(s[i], x)
  {
    if s != [] {
      TiesMembers(s[1..], x, leq);
    }
  }

  // Order, contents and tie order leave no freedom at all.
  lemma {:induction false} StableSortUnique<T(!new)>(a: seq<T>, b: seq<T>, leq: (T, T) -> bool)
    requires TotalPreorder(leq)
    requires Sorted(a, leq) && Sorted(b, leq)
    requires SameTies(a, b, leq)
    ensures a == b
  {
    if a == [] {
      if b != [] {
        TiesMembers(b, b[0], leq);
        assert false;
      }
    } else {
      TiesMembers(a, a[0], leq);
      assert Ties(b, a[0], leq) != [];
      TiesMembers(b, a[0], leq);
      TiesMembers(b, b[0], leq);
      TiesMembers(a, b[0], leq);
      assert leq(b[0], a[0]) && leq(a[0], b[0]);
      assert Ties(a, a[0], leq)[0] == a[0] && Ties(b, a[0], leq)[0] == b[0];
      forall x ensures Ties(a[1..], x, leq) == Ties(b[1..], x, leq) {
        var head := if leq(x, a[0]) && leq(a[0], x) then [a[0]] else [];
        assert Ties(a, x, leq) == head + Ties(a[1..], x, leq);
        assert Ties(b, x, leq) == head + Ties(b[1..], x, leq);
        assert Ties(a, x, leq)[|head|..] == Ties(a[1..], x, leq);
        assert Ties(b, x, leq)[|head|..] == Ties(b[1..], x, leq);
      }
      StableSortUnique(a[1..], b[1..], leq);
      assert a == [a[0]] + a[1..] && b == [b[0]] + b[1..];
    }
  }

  ghost predicate NoTies<T>(a: seq<T>, leq: (T, T) -> bool) {
    forall i, j :: 0 <= i < |a| && 0 <= j < |a| && leq(a[i], a[j]) && leq(a[j], a[i]) ==> a[i] == a[j]
  }

  lemma HeadsAgree<T>(a: seq<T>, b: seq<T>, leq: (T, T) -> bool)
    requires Sorted(a, leq) && Sorted(b, leq) && multiset(a) == multiset(b) && a != [] && b != [] && NoTies(a, leq)
    ensures a[0] == b[0]
  {
    assert a[0] in multiset(b) && b[0] in multiset(a);
    var i :| 0 <= i < |a| && a[i] == b[0];
    var j :| 0 <= j < |b| && b[j] == a[0];
    if i > 0 && j > 0 {
      assert leq(a[0], a[i]) && leq(b[0], b[j]);
    }
  }

  lemma TailMultiset<T>(s: seq<T>)
    requires s != []
    ensures multiset(s[1..]) == multiset(s) - multiset{s[0]}
  {
    assert s == [s[0]] + s[1..];
  }

  // Without ties among its own elements a list has only one ordered permutation.
  lemma {:induction false} SortedUnique<T>(a: seq<T>, b: seq<T>, leq: (T, T) -> bool)
    requires Sorted(a, leq) && Sorted(b, leq) && multiset(a) == multiset(b) && NoTies(a, leq)
    ensures a == b
  {
    if a == [] || b == [] {
      assert |a| == |multiset(a)| == |multiset(b)| == |b|;
    } else {
      HeadsAgree(a, b, leq);
      TailMultiset(a);
      TailMultiset(b);
      SortedUnique(a[1..], b[1..], leq);
      assert a == [a[0]] + a[1..] && b == [b[0]] + b[1..];
    }
  }

  lemma SortsEqualIff<T(!new)>(a: seq<T>, b: seq<T>, leq: (T, T) -> bool)
    requires TotalPreorder(leq)
    ensures Sort(a, leq) == Sort(b, leq) <==> multiset(a) == multiset(b) && SameTies(a, b, leq)
  {
    SortIsStable(a, leq);
    SortIsStable(b, leq);
    var s, t := Sort(a, leq), Sort(b, leq);
    if SameTies(a, b, leq) {
      forall x ensures Ties(s, x, leq) == Ties(t, x, leq) {
        assert Ties(s, x, leq) == Ties(a, x, leq) == Ties(b, x, leq) == Ties(t, x, leq);
      }
      StableSortUnique(s, t, leq);
    }
    if s == t {
      forall x ensures Ties(a, x, leq) == Ties(b, x, leq) {
        assert Ties(a, x, leq) == Ties(s, x, leq) == Ties(t, x, leq) == Ties(b, x, leq);
      }
    }
  }

  // ----- One list, two orders -----

  // Where `x` goes in `t`.
  function Place<T>(x: T, t: seq<T>, leq: (T, T) -> bool): (k: nat)
    ensures k <= |t|
    ensures forall i :: 0 <= i < k ==> !leq(x, t[i])
    ensures k < |t| ==> leq(x, t[k])
    ensures Insert(x, t, leq) == t[..k] + [x] + t[k..]
  {
    if t == [] || leq(x, t[0]) then 0 else 1 + Place(x, t[1..], leq)
  }

  lemma PlaceDecides<T(!new)>(x: T, t: seq<T>, leq: (T, T) -> bool, i: nat)
    requires TotalPreorder(leq) && Sorted(t, leq) && i < |t|
    ensures leq(x, t[i]) <==> Place(x, t, leq) <= i
  {
    var k := Place(x, t, leq);
    if k < i {
      assert leq(x, t[k]) && leq(t[k], t[i]);
    }
  }

  // Taking out the first `x` gives the list and the place back.
  lemma InsertDetermines<T>(x: T, s: seq<T>, t: seq<T>, k: nat, m: nat)
    requires k <= |s| && m <= |t| && x !in s[..k] && x !in t[..m]
    requires s[..k] + [x] + s[k..] == t[..m] + [x] + t[m..]
    ensures s == t && k == m
  {
    var u, v := s[..k] + [x] + s[k..], t[..m] + [x] + t[m..];
    assert u[k] == x && v[m] == x;
    assert forall i :: 0 <= i < k ==> u[i] == s[..k][i];
    assert forall i :: 0 <= i < m ==> v[i] == t[..m][i];
    assert k == m;
    assert u[..k] == s[..k] && v[..k] == t[..k] && u[k + 1..] == s[k..] && v[k + 1..] == t[k..];
    assert s == s[..k] + s[k..] && t == t[..k] + t[k..];
  }

  lemma {:induction false} SortMembers<T(!new)>(s: seq<T>, leq: (T, T) -> bool)
    ensures multiset(Sort(s, leq)) == multiset(s)
    ensures forall x :: x in Sort(s, leq) <==> x in s
  {
    if s != [] {
      SortMembers(s[1..], leq);
      InsertMultiset(s[0], Sort(s[1..], leq), leq);
      assert s == [s[0]] + s[1..];
    }
    forall x ensures x in Sort(s, leq) <==> x in s {
      assert x in multiset(Sort(s, leq)) <==> x in multiset(s);
    }
  }

  // `x` goes to one place in `t` under both orders exactly when they compare it alike.
  lemma SamePlaceIff<T(!new)>(x: T, t: seq<T>, p: (T, T) -> bool, q: (T, T) -> bool)
    requires TotalPreorder(p) && TotalPreorder(q) && Sorted(t, p) && Sorted(t, q)
    ensures Place(x, t, p) == Place(x, t, q) <==> forall y :: y in t ==> (p(x, y) <==> q(x, y))
  {
    var k, m := Place(x, t, p), Place(x, t, q);
    if k == m {
      forall y | y in t ensures p(x, y) <==> q(x, y) {
        var i :| 0 <= i < |t| && t[i] == y;
        PlaceDecides(x, t, p, i);
        PlaceDecides(x, t, q, i);
      }
    }
  }

  // The two orders agree on every pair, taken as it stands in the list.
  ghost predicate AgreeInPlace<T>(s: seq<T>, p: (T, T) -> bool, q: (T, T) -> bool) {
    forall i, j :: 0 <= i < j < |s| ==> (p(s[i], s[j]) <==> q(s[i], s[j]))
  }

  lemma AgreeInPlaceCons<T>(s: seq<T>, p: (T, T) -> bool, q: (T, T) -> bool)
    requires s != []
    ensures AgreeInPlace(s, p, q) <==>
              AgreeInPlace(s[1..], p, q) && forall y :: y in s[1..] ==> (p(s[0], y) <==> q(s[0], y))
  {
    var t := s[1..];
    assert forall i :: 0 <= i < |t| ==> t[i] == s[i + 1];
    if AgreeInPlace(t, p, q) && forall y :: y in t ==> (p(s[0], y) <==> q(s[0], y)) {
      forall i, j | 0 <= i < j < |s| ensures p(s[i], s[j]) <==> q(s[i], s[j]) {
        assert s[j] == t[j - 1];
        if i > 0 { assert s[i] == t[i - 1]; }
      }
    }
  }

  // Stable sorts under two orders give one list exactly then.
  lemma {:induction false} TwoOrdersIff<T(!new)>(s: seq<T>, p: (T, T) -> bool, q: (T, T) -> bool)
    requires TotalPreorder(p) && TotalPreorder(q)
    ensures Sort(s, p) == Sort(s, q) <==> AgreeInPlace(s, p, q)
  {
    if s != [] {
      var x, a, b := s[0], Sort(s[1..], p), Sort(s[1..], q);
      TwoOrdersIff(s[1..], p, q);
      AgreeInPlaceCons(s, p, q);
      SortMembers(s[1..], p);
      SortMembers(s[1..], q);
      assert p(x, x) && q(x, x);
      assert x !in a[..Place(x, a, p)] && x !in b[..Place(x, b, q)];
      if Sort(s, p) == Sort(s, q) {
        InsertDetermines(x, a, b, Place(x, a, p), Place(x, b, q));
      }
      if a == b {
        SortIsStable(s[1..], p);
        SortIsStable(s[1..], q);
        SamePlaceIff(x, a, p, q);
      }
    }
  }

  // ----- One order, every permutation -----

  lemma {:induction false} TiesOnly<T>(s: seq<T>, x: T, leq: (T, T) -> bool)
    ensures forall y :: y in Ties(s, x, leq) <==> y in s && Tied(x, y, leq)
  {
    if s != [] { TiesOnly(s[1..], x, leq); }
  }

  lemma MoveToFront<T>(s: seq<T>, i: nat)
    requires i < |s|
    ensures multiset([s[i]] + (s[..i] + s[i + 1..])) == multiset(s)
  {
    assert s == s[..i] + [s[i]] + s[i + 1..];
  }

  // A tied element moved to the front changes the order of ties.
  lemma MovedTie<T(!new)>(x: T, rest: seq<T>, s: seq<T>, y: T, leq: (T, T) -> bool)
    requires Tied(x, y, leq) && Ties(s, x, leq) != [] && Ties(s, x, leq)[0] != y
    ensures !SameTies([y] + rest, s, leq)
  {
    TiesCons(y, rest, x, leq);
    assert Ties([y] + rest, x, leq)[0] == y;
    assert Ties([y] + rest, x, leq) != Ties(s, x, leq);
  }

  // Every permutation sorts alike exactly when nothing ties but equals.
  lemma PermutationsIff<T(!new)>(s: seq<T>, leq: (T, T) -> bool)
    requires TotalPreorder(leq)
    ensures (forall t :: multiset(t) == multiset(s) ==> Sort(t, leq) == Sort(s, leq)) <==> NoTies(s, leq)
  {
    if NoTies(s, leq) {
      forall t | multiset(t) == multiset(s) ensures Sort(t, leq) == Sort(s, leq) {
        SortIsStable(s, leq);
        SortIsStable(t, leq);
        SortNoTies(s, leq);
        SortedUnique(Sort(s, leq), Sort(t, leq), leq);
      }
    } else {
      var i, j :| 0 <= i < |s| && 0 <= j < |s| && leq(s[i], s[j]) && leq(s[j], s[i]) && s[i] != s[j];
      TiesOnly(s, s[i], leq);
      assert s[i] in s && s[i] in Ties(s, s[i], leq);
      var k := if Ties(s, s[i], leq)[0] != s[i] then i else j;
      var rest := s[..k] + s[k + 1..];
      MoveToFront(s, k);
      MovedTie(s[i], rest, s, s[k], leq);
      SortsEqualIff([s[k]] + rest, s, leq);
    }
  }

  lemma SortNoTies<T(!new)>(s: seq<T>, leq: (T, T) -> bool)
    requires NoTies(s, leq)
    ensures NoTies(Sort(s, leq), leq)
  {
    var t := Sort(s, leq);
    SortMembers(s, leq);
    forall i, j | 0 <= i < |t| && 0 <= j < |t| && leq(t[i], t[j]) && leq(t[j], t[i]) ensures t[i] == t[j] {
      assert t[i] in t && t[j] in t;
      var k :| 0 <= k < |s| && s[k] == t[i];
      var m :| 0 <= m < |s| && s[m] == t[j];
    }
  }
}
