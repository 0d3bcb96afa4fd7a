// The two-pass backfill of nt-be/examples/mark_testing_daos.rs with the rule of
// nt-be/src/services/testing_accounts.rs.
module Backfill {
  import opened Sorting

  type Table = map<string, bool>

  // `should_mark_testing`
  predicate ShouldMark(dao: string, members: set<string>, explicitIds: seq<string>, testers: set<string>) {
    dao in explicitIds || (members != {} && forall m <- members :: m in testers)
  }

  // Policy members by DAO; a DAO without rows has none.
  function MembersOf(members: map<string, set<string>>, dao: string): set<string> {
    if dao in members then members[dao] else {}
  }

  // `rows` names every tracked DAO once.
  ghost predicate Lists(rows: seq<string>, t: Table) {
    Distinct(rows) && |rows| == |t| && forall k :: k in rows <==> k in t
  }

  // Listed, or with members who are all testers.
  lemma ShouldMarkIff(dao: string, members: set<string>, explicitIds: seq<string>, testers: set<string>)
    ensures ShouldMark(dao, members, explicitIds, testers) <==> dao in explicitIds || {} < members <= testers
  {
  }

  function Count(ids: seq<string>, p: string -> bool): nat {
    if ids == [] then 0 else Count(ids[..|ids| - 1], p) + if p(ids[|ids| - 1]) then 1 else 0
  }

  function IsFlagged(t: Table): string -> bool { (k: string) => k in t && t[k] }
  function IsUnflagged(t: Table): string -> bool { (k: string) => k in t && !t[k] }
  function IsMissing(t: Table): string -> bool { (k: string) => k !in t }

  // The rule for every DAO, and the DAOs each pass changes.
  function Rule(members: map<string, set<string>>, explicitIds: seq<string>, testers: set<string>): string -> bool {
    (k: string) => ShouldMark(k, MembersOf(members, k), explicitIds, testers)
  }
  function Marks(t: Table, rule: string -> bool): string -> bool { (k: string) => k in t && !t[k] && rule(k) }
  function Skips(t: Table, rule: string -> bool): string -> bool { (k: string) => k in t && !t[k] && !rule(k) }

  // The table once the DAOs in `ids` that satisfy `rule` have been flagged.
  function Raise(t: Table, ids: seq<string>, rule: string -> bool): Table {
    map k | k in t :: t[k] || (k in ids && rule(k))
  }

  function Anything(): string -> bool { (k: string) => true }

  lemma RaiseStep(t: Table, ids: seq<string>, i: nat, rule: string -> bool)
    requires Distinct(ids) && i < |ids|
    ensures var before, after := Raise(t, ids[..i], rule), Raise(t, ids[..i + 1], rule);
            && (ids[i] in before <==> ids[i] in t) && (ids[i] in t ==> before[ids[i]] == t[ids[i]])
            && after == if ids[i] in t && rule(ids[i]) then before[ids[i] := true] else before
  {
    assert ids[..i + 1] == ids[..i] + [ids[i]];
    assert ids[i] !in ids[..i];
  }

  lemma CountStep(ids: seq<string>, i: nat, p: string -> bool)
    requires i < |ids|
    ensures Count(ids[..i + 1], p) == Count(ids[..i], p) + if p(ids[i]) then 1 else 0
  {
    assert ids[..i + 1][..i] == ids[..i];
  }

  lemma {:induction false} CountThree(ids: seq<string>, p: string -> bool, q: string -> bool, r: string -> bool)
    requires forall k :: k in ids ==> (p(k) || q(k) || r(k)) && !(p(k) && q(k)) && !(p(k) && r(k)) && !(q(k) && r(k))
    ensures Count(ids, p) + Count(ids, q) + Count(ids, r) == |ids|
  {
    if ids != [] {
      CountThree(ids[..|ids| - 1], p, q, r);
      assert ids[|ids| - 1] in ids;
    }
  }

  lemma {:induction false} CountNone(ids: seq<string>, p: string -> bool)
    requires forall k :: k in ids ==> !p(k)
    ensures Count(ids, p) == 0
  {
    if ids != [] {
      assert ids[|ids| - 1] in ids;
      CountNone(ids[..|ids| - 1], p);
    }
  }

  // The counters as a value, and what each pass adds to them.
  datatype Tally = Tally(explicitMarked: nat, explicitMissing: nat, policyMarked: nat, alreadyMarked: nat,
                         skipped: nat)
  {
    function Total(): nat { explicitMarked + explicitMissing + policyMarked + alreadyMarked + skipped }
  }

  function FirstPass(c: Tally, t: Table, ids: seq<string>): Tally {
    c.(explicitMarked := c.explicitMarked + Count(ids, IsUnflagged(t)),
       alreadyMarked := c.alreadyMarked + Count(ids, IsFlagged(t)),
       explicitMissing := c.explicitMissing + Count(ids, IsMissing(t)))
  }

  function SecondPass(c: Tally, t: Table, rows: seq<string>, rule: string -> bool): Tally {
    c.(policyMarked := c.policyMarked + Count(rows, Marks(t, rule)),
       alreadyMarked := c.alreadyMarked + Count(rows, IsFlagged(t)),
       skipped := c.skipped + Count(rows, Skips(t, rule)))
  }

  lemma FirstPassStep(c: Tally, t: Table, ids: seq<string>, i: nat)
    requires i < |ids|
    ensures var d := FirstPass(c, t, ids[..i]);
            FirstPass(c, t, ids[..i + 1]) ==
            if ids[i] !in t then d.(explicitMissing := d.explicitMissing + 1)
            else if t[ids[i]] then d.(alreadyMarked := d.alreadyMarked + 1)
            else d.(explicitMarked := d.explicitMarked + 1)
  {
    CountStep(ids, i, IsUnflagged(t));
    CountStep(ids, i, IsFlagged(t));
    CountStep(ids, i, IsMissing(t));
  }

  lemma SecondPassStep(c: Tally, t: Table, rows: seq<string>, i: nat, rule: string -> bool)
    requires i < |rows| && rows[i] in t
    ensures var d := SecondPass(c, t, rows[..i], rule);
            SecondPass(c, t, rows[..i + 1], rule) ==
            if t[rows[i]] then d.(alreadyMarked := d.alreadyMarked + 1)
            else if rule(rows[i]) then d.(policyMarked := d.policyMarked + 1)
            else d.(skipped := d.skipped + 1)
  {
    CountStep(rows, i, Marks(t, rule));
    CountStep(rows, i, Skips(t, rule));
    CountStep(rows, i, IsFlagged(t));
  }

  class Stats {
    var explicitMarked: nat
    var explicitMissing: nat
    var policyMarked: nat
    var alreadyMarked: nat
    var skipped: nat

    constructor ()
      ensures Now() == Tally(0, 0, 0, 0, 0)
    {
      explicitMarked, explicitMissing, policyMarked, alreadyMarked, skipped := 0, 0, 0, 0, 0;
    }

    function Now(): Tally
      reads this
    {
      Tally(explicitMarked, explicitMissing, policyMarked, alreadyMarked, skipped)
    }
  }

  class Database {
    var monitored: Table
    const members: map<string, set<string>>

    constructor (monitored: Table, members: map<string, set<string>>)
      ensures this.monitored == monitored && this.members == members
    {
      this.monitored, this.members := monitored, members;
    }

    // `UPDATE .. SET is_testing = true WHERE account_id = $1 AND is_testing = false`
    method RaiseFlag(dao: string) returns (rowsAffected: nat)
      modifies this
      ensures monitored == if dao in old(monitored) then old(monitored)[dao := true] else old(monitored)
      ensures rowsAffected == if dao in old(monitored) && !old(monitored)[dao] then 1 else 0
    {
      if dao in monitored && !monitored[dao] {
        monitored := monitored[dao := true];
        return 1;
      }
      return 0;
    }

    // `SELECT account_id FROM monitored_accounts ORDER BY account_id`, in some order.
    method FetchAll() returns (rows: seq<string>)
      ensures Lists(rows, monitored)
    {
      rows := [];
      var todo := monitored.Keys;
      while todo != {}
        invariant todo <= monitored.Keys && Distinct(rows) && |rows| + |todo| == |monitored|
        invariant forall k :: k in rows <==> k in monitored && k !in todo
        decreases |todo|
      {
        var k :| k in todo;
        rows := rows + [k];
        todo := todo - {k};
      }
    }

    // `explicitIds` in the order in which the set is walked.
    method MarkExplicitDaos(explicitIds: seq<string>, stats: Stats)
      requires Distinct(explicitIds)
      modifies this, stats
      ensures monitored == Raise(old(monitored), explicitIds, Anything())
      ensures stats.Now() == FirstPass(old(stats.Now()), old(monitored), explicitIds)
    {
      ghost var t, c := monitored, stats.Now();
      for i := 0 to |explicitIds|
        invariant monitored == Raise(t, explicitIds[..i], Anything())
        invariant stats.Now() == FirstPass(c, t, explicitIds[..i])
      {
        RaiseStep(t, explicitIds, i, Anything());
        FirstPassStep(c, t, explicitIds, i);
        var rowsAffected := RaiseFlag(explicitIds[i]);
        if rowsAffected > 0 {
          stats.explicitMarked := stats.explicitMarked + 1;
          continue;
        }
        if explicitIds[i] in monitored {
          stats.alreadyMarked := stats.alreadyMarked + 1;
        } else {
          stats.explicitMissing := stats.explicitMissing + 1;
        }
      }
      assert explicitIds[..|explicitIds|] == explicitIds;
    }

    // One row of the second pass.
    method BackfillRow(dao: string, isTesting: bool, explicitIds: seq<string>, testers: set<string>, stats: Stats)
      requires dao in monitored && monitored[dao] == isTesting
      modifies this, stats
      ensures var marks := ShouldMark(dao, MembersOf(members, dao), explicitIds, testers);
              && monitored == (if marks then old(monitored)[dao := true] else old(monitored))
              && var d := old(stats.Now());
                 stats.Now() == if isTesting then d.(alreadyMarked := d.alreadyMarked + 1)
                                else if marks then d.(policyMarked := d.policyMarked + 1)
                                else d.(skipped := d.skipped + 1)
    {
      if isTesting {
        stats.alreadyMarked := stats.alreadyMarked + 1;
        return;
      }
      if ShouldMark(dao, MembersOf(members, dao), explicitIds, testers) {
        var rowsAffected := RaiseFlag(dao);
        if rowsAffected > 0 {
          stats.policyMarked := stats.policyMarked + 1;
        } else {
          assert false; // the row was unflagged when it was read and nothing else writes
        }
      } else {
        stats.skipped := stats.skipped + 1;
      }
    }

    method BackfillFromPolicyMembers(explicitIds: seq<string>, testers: set<string>, stats: Stats)
      returns (rows: seq<string>)
      modifies this, stats
      ensures Lists(rows, old(monitored))
      ensures monitored == Raise(old(monitored), rows, Rule(members, explicitIds, testers))
      ensures stats.Now() == SecondPass(old(stats.Now()), old(monitored), rows, Rule(members, explicitIds, testers))
    {
      rows := FetchAll();
      var tracked := monitored;
      ghost var c, rule := stats.Now(), Rule(members, explicitIds, testers);
      for i := 0 to |rows|
        invariant monitored == Raise(tracked, rows[..i], rule)
        invariant stats.Now() == SecondPass(c, tracked, rows[..i], rule)
      {
        RaiseStep(tracked, rows, i, rule);
        SecondPassStep(c, tracked, rows, i, rule);
        BackfillRow(rows[i], tracked[rows[i]], explicitIds, testers, stats);
      }
      assert rows[..|rows|] == rows;
    }

    // Both passes on fresh counters.
    method Run(explicitIds: seq<string>, testers: set<string>) returns (stats: Stats)
      requires Distinct(explicitIds)
      modifies this
      ensures fresh(stats)
      ensures monitored == Final(old(monitored), Rule(members, explicitIds, testers))
      ensures monitored.Keys == old(monitored).Keys
      ensures forall dao <- monitored ::
                monitored[dao] <==> || old(monitored)[dao] || dao in explicitIds
                                    || (dao in members && {} < members[dao] <= testers)
      ensures stats.Now().Total() == |explicitIds| + |old(monitored)|
      ensures stats.explicitMarked == Count(explicitIds, IsUnflagged(old(monitored)))
      ensures stats.explicitMissing == Count(explicitIds, IsMissing(old(monitored)))
      ensures old(monitored) == Final(old(monitored), Rule(members, explicitIds, testers)) ==>
                stats.explicitMarked == 0 && stats.policyMarked == 0
    {
      ghost var t := monitored;
      stats := new Stats();
      MarkExplicitDaos(explicitIds, stats);
      var rows := BackfillFromPolicyMembers(explicitIds, testers, stats);
      ExplicitObeyRule(members, explicitIds, testers);
      BothPasses(t, explicitIds, rows, Rule(members, explicitIds, testers));
    }
  }

  // What a tracked DAO is after the run.
  function Final(t: Table, rule: string -> bool): Table { map k | k in t :: t[k] || rule(k) }

  lemma FinalIsBoth(t: Table, explicitIds: seq<string>, rows: seq<string>, rule: string -> bool)
    requires (forall k :: k in rows <==> k in t) && forall k :: k in explicitIds ==> rule(k)
    ensures Raise(Raise(t, explicitIds, Anything()), rows, rule) == Final(t, rule)
  {
  }

  lemma SettledMarksNothing(t: Table, explicitIds: seq<string>, rows: seq<string>, rule: string -> bool)
    requires t == Final(t, rule) && forall k :: k in explicitIds ==> rule(k)
    ensures Count(explicitIds, IsUnflagged(t)) == 0
    ensures Count(rows, Marks(Raise(t, explicitIds, Anything()), rule)) == 0
  {
    forall k | k in t && rule(k) ensures t[k] {
      assert Final(t, rule)[k];
    }
    CountNone(explicitIds, IsUnflagged(t));
    CountNone(rows, Marks(Raise(t, explicitIds, Anything()), rule));
  }

  lemma RaiseKeepsKeys(t: Table, ids: seq<string>, rule: string -> bool)
    ensures Raise(t, ids, rule).Keys == t.Keys && |Raise(t, ids, rule)| == |t|
  {
    assert Raise(t, ids, rule).Keys == t.Keys;
    assert |Raise(t, ids, rule)| == |Raise(t, ids, rule).Keys| && |t| == |t.Keys|;
  }

  // What both passes do together, counters included.
  lemma BothPasses(t: Table, explicitIds: seq<string>, rows: seq<string>, rule: string -> bool)
    requires Lists(rows, Raise(t, explicitIds, Anything())) && forall k :: k in explicitIds ==> rule(k)
    ensures var first := Raise(t, explicitIds, Anything());
            var c := SecondPass(FirstPass(Tally(0, 0, 0, 0, 0), t, explicitIds), first, rows, rule);
            && Raise(first, rows, rule) == Final(t, rule)
            && c.Total() == |explicitIds| + |t|
            && (t == Final(t, rule) ==> c.explicitMarked == 0 && c.policyMarked == 0)
  {
    var first := Raise(t, explicitIds, Anything());
    RaiseKeepsKeys(t, explicitIds, Anything());
    FinalIsBoth(t, explicitIds, rows, rule);
    CountThree(explicitIds, IsUnflagged(t), IsFlagged(t), IsMissing(t));
    CountThree(rows, Marks(first, rule), Skips(first, rule), IsFlagged(first));
    if t == Final(t, rule) {
      SettledMarksNothing(t, explicitIds, rows, rule);
    }
  }

  lemma ExplicitObeyRule(members: map<string, set<string>>, explicitIds: seq<string>, testers: set<string>)
    ensures forall k :: k in explicitIds ==> Rule(members, explicitIds, testers)(k)
  {
  }

  // No flag is cleared, a flag is new exactly by the rule, and the result of a run is settled:
  // a second run finds nothing to mark.
  lemma RunSettles(t: Table, rule: string -> bool)
    ensures Final(t, rule).Keys == t.Keys
    ensures forall k <- t :: Final(t, rule)[k] <==> t[k] || rule(k)
    ensures Final(Final(t, rule), rule) == Final(t, rule)
  {
    assert Final(t, rule).Keys == t.Keys;
  }
}
