// The signing contract contracts/confidential-bulk-payment/src/lib.rs: hashes read from an
// approved proposal are sent to an asynchronous signer in batches, and every answer comes
// back in its own callback.
module ConfidentialBulk {
  import opened Wrappers
  import opened Utf8
  import opened Arithmetic

  datatype HashStatus = Pending | Signing | Signed(signature: seq<byte>) | SignFailed | Invalid

  datatype HashEntry = HashEntry(payload: string, status: HashStatus)

  datatype Status = Loading | Ready(cursor: nat) | Finished

  // `unresolved` counts the entries still Pending or Signing.
  datatype Activation = Activation(status: Status, hashes: seq<HashEntry>, unresolved: nat)

  const MAX_HASHES: nat := 200
  const BYTES_PER_HASH: nat := 150
  const BYTES_PER_ACTIVATION: nat := 170

  predicate IsOpen(e: HashEntry) { e.status.Pending? || e.status.Signing? }

  function Open(hashes: seq<HashEntry>): nat {
    if hashes == [] then 0 else (if IsOpen(hashes[0]) then 1 else 0) + Open(hashes[1..])
  }

  lemma {:induction false} OpenUpdate(hashes: seq<HashEntry>, i: nat, e: HashEntry)
    requires i < |hashes|
    ensures Open(hashes[i := e]) == Open(hashes) + (if IsOpen(e) then 1 else 0) - (if IsOpen(hashes[i]) then 1 else 0)
  {
    if i == 0 {
      assert hashes[i := e][1..] == hashes[1..];
    } else {
      assert hashes[i := e][1..] == hashes[1..][i - 1 := e];
      OpenUpdate(hashes[1..], i - 1, e);
    }
  }

  lemma {:induction false} OpenZero(hashes: seq<HashEntry>)
    ensures Open(hashes) == 0 <==> forall i :: 0 <= i < |hashes| ==> !IsOpen(hashes[i])
  {
    if hashes != [] {
      OpenZero(hashes[1..]);
      assert forall i :: 1 <= i < |hashes| ==> hashes[i] == hashes[1..][i - 1];
    }
  }

  // ----- What each entry point does to an activation -----

  // The answer of the signer to one request.
  datatype Answer = Signature(bytes: seq<byte>) | Failure

  function Outcome(answer: Answer): HashStatus {
    if answer.Signature? && |answer.bytes| == 64 then Signed(answer.bytes) else SignFailed
  }

  // `on_sign`
  function Resolve(a: Activation, i: nat, answer: Answer): Activation {
    if i >= |a.hashes| || !a.hashes[i].status.Signing? then a
    else
      var left := if a.unresolved == 0 then 0 else a.unresolved - 1;
      Activation(if left == 0 then Finished else a.status,
                 a.hashes[i := a.hashes[i].(status := Outcome(answer))], left)
  }

  function Reset(e: HashEntry): HashEntry { if e.status.SignFailed? then e.(status := Pending) else e }

  function ResetAll(hashes: seq<HashEntry>): seq<HashEntry> {
    seq(|hashes|, i requires 0 <= i < |hashes| => Reset(hashes[i]))
  }

  function Failed(hashes: seq<HashEntry>): nat {
    if hashes == [] then 0 else (if hashes[0].status.SignFailed? then 1 else 0) + Failed(hashes[1..])
  }

  function FirstFailed(hashes: seq<HashEntry>): (i: nat)
    ensures i <= |hashes|
    ensures i < |hashes| ==> hashes[i].status.SignFailed?
    ensures forall j :: 0 <= j < i ==> !hashes[j].status.SignFailed?
  {
    if hashes == [] || hashes[0].status.SignFailed? then 0 else 1 + FirstFailed(hashes[1..])
  }

  // `retry_failed`
  function Retry(a: Activation): Activation {
    if FirstFailed(a.hashes) == |a.hashes| then a
    else Activation(Ready(FirstFailed(a.hashes)), ResetAll(a.hashes), a.unresolved + Failed(a.hashes))
  }

  // `ping`, for a batch that gas allows to reach `cursor`: Pending entries on the way are
  // sent out, and the batch ends at the end of the list or on a Pending entry.
  ghost predicate Pinged(a: Activation, b: Activation) {
    && a.status.Ready? && b.status.Ready?
    && |b.hashes| == |a.hashes| && b.unresolved == a.unresolved
    && a.status.cursor <= b.status.cursor <= |a.hashes|
    && (b.status.cursor < |a.hashes| ==> a.hashes[b.status.cursor].status.Pending?)
    && forall i :: 0 <= i < |a.hashes| ==>
         b.hashes[i] == if a.status.cursor <= i < b.status.cursor && a.hashes[i].status.Pending?
                        then a.hashes[i].(status := Signing) else a.hashes[i]
  }

  // Where a batch of up to `budget` requests ends.
  function BatchEnd(hashes: seq<HashEntry>, cursor: nat, budget: nat): (end: nat)
    requires cursor <= |hashes|
    ensures cursor <= end <= |hashes|
    ensures end < |hashes| ==> hashes[end].status.Pending?
    decreases |hashes| - cursor
  {
    if cursor == |hashes| then cursor
    else if !hashes[cursor].status.Pending? then BatchEnd(hashes, cursor + 1, budget)
    else if budget == 0 then cursor
    else BatchEnd(hashes, cursor + 1, budget - 1)
  }

  function SendOut(hashes: seq<HashEntry>, from: nat, to: nat): seq<HashEntry> {
    seq(|hashes|, i requires 0 <= i < |hashes| =>
      if from <= i < to && hashes[i].status.Pending? then hashes[i].(status := Signing) else hashes[i])
  }

  // `ping` with gas for `budget` requests
  function PingWith(a: Activation, budget: nat): Activation
    requires a.status.Ready? && a.status.cursor <= |a.hashes|
  {
    var end := BatchEnd(a.hashes, a.status.cursor, budget);
    Activation(Ready(end), SendOut(a.hashes, a.status.cursor, end), a.unresolved)
  }

  lemma PingWithPings(a: Activation, budget: nat)
    requires a.status.Ready? && a.status.cursor <= |a.hashes|
    ensures Pinged(a, PingWith(a, budget))
  {
  }

  // A batch reaches a Pending entry as soon as there is one and gas for one request.
  lemma {:induction false} BatchMoves(hashes: seq<HashEntry>, cursor: nat, budget: nat, p: nat)
    requires cursor <= p < |hashes| && hashes[p].status.Pending? && budget > 0
    ensures exists i :: cursor <= i < BatchEnd(hashes, cursor, budget) && hashes[i].status.Pending?
    decreases |hashes| - cursor
  {
    if !hashes[cursor].status.Pending? {
      BatchMoves(hashes, cursor + 1, budget, p);
    } else {
      assert cursor < BatchEnd(hashes, cursor, budget);
    }
  }

  // ----- What every activation keeps once loaded -----

  ghost predicate Inv(a: Activation) {
    && !a.status.Loading?
    && a.unresolved == Open(a.hashes)
    && (a.status.Finished? <==> a.unresolved == 0)
    && (a.status.Ready? ==>
          && a.status.cursor <= |a.hashes|
          && (a.status.cursor < |a.hashes| && !a.hashes[a.status.cursor].status.Pending? ==>
                forall i :: a.status.cursor <= i < |a.hashes| ==>
                  a.hashes[i].status.Pending? || a.hashes[i].status.Invalid?))
  }

  // Every Pending entry is still ahead of the cursor, so a later ping reaches it.
  ghost predicate NothingStranded(a: Activation) {
    a.status.Ready? ==> forall i :: 0 <= i < a.status.cursor && i < |a.hashes| ==> !a.hashes[i].status.Pending?
  }

  lemma LoadKeeps(hashes: seq<HashEntry>)
    requires forall i :: 0 <= i < |hashes| ==> hashes[i].status.Pending? || hashes[i].status.Invalid?
    ensures var a := Activation(if Open(hashes) == 0 then Finished else Ready(0), hashes, Open(hashes));
            Inv(a) && NothingStranded(a)
  {
  }

  lemma ResolveKeeps(a: Activation, i: nat, answer: Answer)
    requires Inv(a)
    ensures Inv(Resolve(a, i, answer))
    ensures NothingStranded(a) ==> NothingStranded(Resolve(a, i, answer))
  {
    if i < |a.hashes| && a.hashes[i].status.Signing? {
      OpenUpdate(a.hashes, i, a.hashes[i].(status := Outcome(answer)));
      OpenZero(a.hashes);
    }
  }

  lemma {:induction false} OpenPinged(h: seq<HashEntry>, k: seq<HashEntry>)
    requires |h| == |k| && forall i :: 0 <= i < |h| ==> (IsOpen(h[i]) <==> IsOpen(k[i]))
    ensures Open(h) == Open(k)
  {
    if h != [] { OpenPinged(h[1..], k[1..]); }
  }

  lemma PingKeeps(a: Activation, b: Activation)
    requires Inv(a) && Pinged(a, b)
    ensures Inv(b)
    ensures NothingStranded(a) ==> NothingStranded(b)
  {
    OpenPinged(a.hashes, b.hashes);
  }

  lemma {:induction false} OpenReset(hashes: seq<HashEntry>)
    ensures Open(ResetAll(hashes)) == Open(hashes) + Failed(hashes)
    ensures Failed(hashes) > 0 <==> FirstFailed(hashes) < |hashes|
  {
    if hashes != [] {
      assert ResetAll(hashes)[1..] == ResetAll(hashes[1..]);
      OpenReset(hashes[1..]);
    }
  }

  lemma {:induction false} FailedSnoc(hashes: seq<HashEntry>, i: nat)
    requires i < |hashes|
    ensures Failed(hashes[..i + 1]) == Failed(hashes[..i]) + if hashes[i].status.SignFailed? then 1 else 0
  {
    if i == 0 {
      assert hashes[..1][1..] == [];
    } else {
      assert hashes[..i + 1][1..] == hashes[1..][..i] && hashes[..i][1..] == hashes[1..][..i - 1];
      FailedSnoc(hashes[1..], i - 1);
    }
  }

  lemma RetryKeeps(a: Activation)
    requires Inv(a)
    ensures Inv(Retry(a))
  {
    OpenReset(a.hashes);
  }

  // ----- Retrying can strand an entry -----

  // `retry_failed` moves the cursor to the first failed entry, also forwards.  It promises
  // that a later ping retries what it reset and keeps what was waiting; that holds exactly
  // when the first failed entry is not after the cursor.
  lemma RetryStrandsIff(a: Activation)
    requires Inv(a) && NothingStranded(a)
    ensures NothingStranded(Retry(a)) <==>
            (a.status.Ready? && FirstFailed(a.hashes) < |a.hashes| ==> FirstFailed(a.hashes) <= a.status.cursor)
  {
    var f := FirstFailed(a.hashes);
    OpenReset(a.hashes);
    if f < |a.hashes| {
      var b := Retry(a);
      assert forall i :: 0 <= i < f ==> b.hashes[i] == a.hashes[i];
      if a.status.Finished? {
        OpenZero(a.hashes);
      } else if f > a.status.cursor {
        assert b.hashes[a.status.cursor].status.Pending?;
      }
    }
  }

  // Entry `p` waits behind the cursor, and nothing before it can fail and pull the cursor back.
  ghost predicate LostAt(a: Activation, p: nat) {
    && a.status.Ready? && p < a.status.cursor && p < |a.hashes| && a.hashes[p].status.Pending?
    && forall i :: 0 <= i < p ==> a.hashes[i].status.Signed? || a.hashes[i].status.Invalid?
  }

  ghost predicate Lost(a: Activation) { exists p: nat :: LostAt(a, p) }

  ghost predicate Step(a: Activation, b: Activation) {
    || b == Retry(a)
    || Pinged(a, b)
    || exists i: nat, answer :: b == Resolve(a, i, answer)
  }

  lemma LostStep(a: Activation, b: Activation, p: nat)
    requires Inv(a) && LostAt(a, p) && Step(a, b)
    ensures LostAt(b, p) && b.hashes[p] == a.hashes[p]
  {
    if !Pinged(a, b) && b != Retry(a) {
      var i: nat, answer :| b == Resolve(a, i, answer);
      ResolveKeeps(a, i, answer);
      OpenZero(b.hashes);
      assert IsOpen(b.hashes[p]);
    }
  }

  // Two hashes suffice: both are sent, the first fails and is reset, the second fails and is
  // reset, and the cursor has jumped over the first.
  lemma TwoRetriesStrand(p: string, q: string, signature: seq<byte>) returns (run: seq<Activation>)
    requires |signature| == 64
    ensures |run| == 8 && run[0] == Activation(Ready(0), [HashEntry(p, Pending), HashEntry(q, Pending)], 2)
    ensures forall i :: 0 < i < |run| ==> Step(run[i - 1], run[i])
    ensures Inv(run[7]) && Lost(run[7])
  {
    var a0 := Activation(Ready(0), [HashEntry(p, Pending), HashEntry(q, Pending)], 2);
    var a1 := Activation(Ready(2), [HashEntry(p, Signing), HashEntry(q, Signing)], 2);
    var a2 := Resolve(a1, 0, Failure);
    assert a2 == Activation(Ready(2), [HashEntry(p, SignFailed), HashEntry(q, Signing)], 1);
    var a3 := Retry(a2);
    OpenReset(a2.hashes);
    assert Failed(a2.hashes[1..]) == 0;
    assert a3 == Activation(Ready(0), [HashEntry(p, Pending), HashEntry(q, Signing)], 2);
    var a4 := Resolve(a3, 1, Failure);
    assert a4 == Activation(Ready(0), [HashEntry(p, Pending), HashEntry(q, SignFailed)], 1);
    var a5 := Retry(a4);
    assert Failed(a4.hashes[1..]) == 1;
    assert a5 == Activation(Ready(1), [HashEntry(p, Pending), HashEntry(q, Pending)], 2);
    var a6 := Activation(Ready(2), [HashEntry(p, Pending), HashEntry(q, Signing)], 2);
    assert Pinged(a5, a6);
    var a7 := Resolve(a6, 1, Signature(signature));
    assert a7 == Activation(Ready(2), [HashEntry(p, Pending), HashEntry(q, Signed(signature))], 1);
    assert Open(a7.hashes[1..]) == 0;
    run := [a0, a1, a2, a3, a4, a5, a6, a7];
    assert Pinged(a0, a1);
    assert LostAt(a7, 0);
  }

  // ----- Whole runs -----

  ghost predicate IsRun(run: seq<Activation>) {
    run != [] && Inv(run[0]) && forall i :: 0 < i < |run| ==> Step(run[i - 1], run[i])
  }

  lemma StepKeeps(a: Activation, b: Activation)
    requires Inv(a) && Step(a, b)
    ensures Inv(b) && EntriesKept(a, b)
  {
    if b == Retry(a) {
      RetryKeeps(a);
    } else if Pinged(a, b) {
      PingKeeps(a, b);
    } else {
      var i: nat, answer :| b == Resolve(a, i, answer);
      ResolveKeeps(a, i, answer);
    }
    StepKeepsEntries(a, b);
  }

  // No payload changes, nor an entry that is signed or is no hash.
  ghost predicate EntriesKept(a: Activation, b: Activation) {
    && |b.hashes| == |a.hashes|
    && forall i :: 0 <= i < |a.hashes| ==>
         && b.hashes[i].payload == a.hashes[i].payload
         && (a.hashes[i].status.Signed? || a.hashes[i].status.Invalid? ==> b.hashes[i] == a.hashes[i])
  }

  lemma StepKeepsEntries(a: Activation, b: Activation)
    requires Step(a, b)
    ensures EntriesKept(a, b)
  {
  }

  lemma {:induction false} RunKeeps(run: seq<Activation>, i: nat, j: nat)
    requires IsRun(run) && i <= j < |run|
    ensures Inv(run[j]) && |run[j].hashes| == |run[i].hashes|
    decreases j
  {
    if j > 0 {
      RunKeeps(run, if i < j then i else j - 1, j - 1);
      StepKeeps(run[j - 1], run[j]);
    }
  }

  // A lost entry stays as it is whatever pings, answers and retries follow.
  lemma {:induction false} LostForever(run: seq<Activation>, j: nat, p: nat)
    requires IsRun(run) && LostAt(run[0], p) && j < |run|
    ensures LostAt(run[j], p) && run[j].hashes[p] == run[0].hashes[p]
    decreases j
  {
    if j > 0 {
      LostForever(run, j - 1, p);
      RunKeeps(run, 0, j - 1);
      LostStep(run[j - 1], run[j], p);
    }
  }

  // Runs in which retry is only called once the cursor has passed the first failed entry.
  ghost predicate CarefulRun(run: seq<Activation>) {
    && IsRun(run) && NothingStranded(run[0])
    && forall i :: 0 < i < |run| && run[i] == Retry(run[i - 1]) && run[i - 1].status.Ready? ==>
         var a := run[i - 1];
         FirstFailed(a.hashes) <= a.status.cursor || FirstFailed(a.hashes) == |a.hashes|
  }

  lemma {:induction false} CarefulRunLosesNothing(run: seq<Activation>, j: nat)
    requires CarefulRun(run) && j < |run|
    ensures NothingStranded(run[j]) && !Lost(run[j])
    decreases j
  {
    RunKeeps(run, 0, j);
    if j > 0 {
      CarefulRunLosesNothing(run, j - 1);
      RunKeeps(run, 0, j - 1);
      var a, b := run[j - 1], run[j];
      if b == Retry(a) {
        RetryStrandsIff(a);
      } else if Pinged(a, b) {
        PingKeeps(a, b);
      } else {
        var i: nat, answer :| b == Resolve(a, i, answer);
        ResolveKeeps(a, i, answer);
      }
    }
  }

  // A run from `a` to a finished activation.
  ghost predicate Finishes(a: Activation, run: seq<Activation>) {
    IsRun(run) && run[0] == a && run[|run| - 1].status.Finished?
  }

  // A step whose pings have gas for `budget` requests.
  ghost predicate StepWithin(a: Activation, b: Activation, budget: nat) {
    || b == Retry(a)
    || (a.status.Ready? && a.status.cursor <= |a.hashes| && b == PingWith(a, budget))
    || exists i: nat, answer :: b == Resolve(a, i, answer)
  }

  // Such a run after which every entry is signed, or was no hash to begin with.
  ghost predicate SignsAll(a: Activation, run: seq<Activation>, budget: nat) {
    && Finishes(a, run)
    && (forall i :: 0 < i < |run| ==> StepWithin(run[i - 1], run[i], budget))
    && forall e :: e in run[|run| - 1].hashes ==> e.status.Signed? || e.status.Invalid?
  }

  lemma Prepend(a: Activation, b: Activation, rest: seq<Activation>, budget: nat)
    requires Inv(a) && StepWithin(a, b, budget) && SignsAll(b, rest, budget)
    ensures SignsAll(a, [a] + rest, budget)
  {
    var run := [a] + rest;
    if a.status.Ready? { PingWithPings(a, budget); }
    assert Step(a, b);
    forall i | 0 < i < |run| ensures Step(run[i - 1], run[i]) && StepWithin(run[i - 1], run[i], budget) {
      assert run[i] == rest[i - 1];
      if i > 1 {
        assert run[i - 1] == rest[i - 2];
        assert Step(rest[i - 1 - 1], rest[i - 1]) && StepWithin(rest[i - 1 - 1], rest[i - 1], budget);
      }
    }
  }

  ghost predicate HasSigning(a: Activation) { exists i :: 0 <= i < |a.hashes| && a.hashes[i].status.Signing? }

  predicate HasFailed(a: Activation) { FirstFailed(a.hashes) < |a.hashes| }

  const SIGNATURE: Answer := Signature(seq(64, i => 0))

  lemma SignOne(a: Activation) returns (b: Activation)
    requires Inv(a) && NothingStranded(a) && !a.status.Finished? && HasSigning(a)
    ensures Inv(b) && NothingStranded(b) && b.unresolved < a.unresolved && (HasFailed(b) ==> HasFailed(a))
    ensures exists i: nat, answer :: b == Resolve(a, i, answer)
  {
    var i: nat :| i < |a.hashes| && a.hashes[i].status.Signing?;
    b := Resolve(a, i, SIGNATURE);
    ResolveKeeps(a, i, SIGNATURE);
    OpenZero(a.hashes);
  }

  lemma PingOne(a: Activation, budget: nat)
    requires Inv(a) && NothingStranded(a) && a.status.Ready? && !HasSigning(a) && budget > 0
    ensures var b := PingWith(a, budget);
            && Inv(b) && NothingStranded(b) && b.unresolved == a.unresolved
            && HasSigning(b) && (HasFailed(b) ==> HasFailed(a))
  {
    OpenZero(a.hashes);
    var p :| 0 <= p < |a.hashes| && IsOpen(a.hashes[p]);
    var b := PingWith(a, budget);
    PingWithPings(a, budget);
    PingKeeps(a, b);
    BatchMoves(a.hashes, a.status.cursor, budget, p);
    var i :| a.status.cursor <= i < b.status.cursor && a.hashes[i].status.Pending?;
    assert b.hashes[i].status.Signing?;
  }

  // Where nothing is stranded, pings with gas for one request or more, good answers and one
  // retry of what failed earlier get every hash signed.
  lemma {:induction false} CanSignAll(a: Activation, budget: nat) returns (run: seq<Activation>)
    requires Inv(a) && NothingStranded(a) && budget > 0
    ensures SignsAll(a, run, budget)
    decreases HasFailed(a), a.unresolved, !HasSigning(a)
  {
    var b := a;
    if a.status.Finished? {
      OpenZero(a.hashes);
      if !HasFailed(a) { return [a]; }
      b := Retry(a);
      RetryKeeps(a);
      RetryStrandsIff(a);
    } else if HasSigning(a) {
      b := SignOne(a);
    } else {
      b := PingWith(a, budget);
      PingOne(a, budget);
    }
    var rest := CanSignAll(b, budget);
    Prepend(a, b, rest, budget);
    run := [a] + rest;
  }

  // A retry that finds a failed entry before every Pending one strands nothing.
  lemma RetryFirst(a: Activation, f: nat)
    requires Inv(a) && f < |a.hashes| && a.hashes[f].status.SignFailed?
    requires forall i :: 0 <= i < f ==> !a.hashes[i].status.Pending?
    ensures Inv(Retry(a)) && NothingStranded(Retry(a))
  {
    RetryKeeps(a);
    assert FirstFailed(a.hashes) <= f;
  }

  // An answer that fails and a retry bring the cursor back to `f`.
  lemma Rewind(a: Activation, f: nat, budget: nat) returns (run: seq<Activation>)
    requires Inv(a) && budget > 0
    requires f < |a.hashes| && (a.hashes[f].status.Signing? || a.hashes[f].status.SignFailed?)
    requires forall i :: 0 <= i < f ==> !a.hashes[i].status.Pending?
    ensures SignsAll(a, run, budget)
  {
    var b := Resolve(a, f, Failure);
    ResolveKeeps(a, f, Failure);
    RetryFirst(b, f);
    var rest := CanSignAll(Retry(b), budget);
    Prepend(b, Retry(b), rest, budget);
    Prepend(a, b, [b] + rest, budget);
    run := [a] + ([b] + rest);
  }

  // Exactly the activations that have lost nothing can still be finished, and exactly they can
  // still get every hash signed, however little gas each ping has beyond one request.
  lemma FinishableIff(a: Activation, budget: nat)
    requires Inv(a) && budget > 0
    ensures (exists run :: Finishes(a, run)) <==> !Lost(a)
    ensures (exists run :: SignsAll(a, run, budget)) <==> !Lost(a)
  {
    if Lost(a) {
      var p: nat :| LostAt(a, p);
      forall run ensures !Finishes(a, run) {
        if Finishes(a, run) { LostForever(run, |run| - 1, p); }
      }
    } else {
      var run;
      if NothingStranded(a) {
        run := CanSignAll(a, budget);
      } else {
        var p: nat := FirstPending(a.hashes);
        assert !LostAt(a, p);
        var f: nat :| f < p && !(a.hashes[f].status.Signed? || a.hashes[f].status.Invalid?);
        run := Rewind(a, f, budget);
      }
      assert SignsAll(a, run, budget) && Finishes(a, run);
    }
  }

  function FirstPending(hashes: seq<HashEntry>): (i: nat)
    ensures i <= |hashes|
    ensures i < |hashes| ==> hashes[i].status.Pending?
    ensures forall j :: 0 <= j < i ==> !hashes[j].status.Pending?
  {
    if hashes == [] || hashes[0].status.Pending? then 0 else 1 + FirstPending(hashes[1..])
  }

  // What was approved is what gets signed, once: payloads never change and a signature,
  // once stored, is never replaced.
  lemma {:induction false} SignaturesAreFinal(run: seq<Activation>, i: nat, j: nat, k: nat)
    requires IsRun(run) && i <= j < |run| && k < |run[i].hashes|
    ensures |run[j].hashes| == |run[i].hashes|
    ensures run[j].hashes[k].payload == run[i].hashes[k].payload
    ensures run[i].hashes[k].status.Signed? ==> run[j].hashes[k] == run[i].hashes[k]
    decreases j
  {
    RunKeeps(run, i, j);
    if i < j {
      RunKeeps(run, i, j - 1);
      SignaturesAreFinal(run, i, j - 1, k);
      StepKeeps(run[j - 1], run[j]);
    }
  }

  // ----- Deposits -----

  // Saturating, as in the source: storage for the entries plus one yocto per request.
  function CostForHashes(n: nat, byteCost: nat): nat {
    var bytes := Min(U64_MAX, Min(U64_MAX, BYTES_PER_HASH * n) + BYTES_PER_ACTIVATION);
    Min(U128_MAX, Min(U128_MAX, byteCost * bytes) + n)
  }

  lemma CostMonotone(m: nat, n: nat, byteCost: nat)
    requires m <= n
    ensures CostForHashes(m, byteCost) <= CostForHashes(n, byteCost)
  {
    var a := Min(U64_MAX, Min(U64_MAX, BYTES_PER_HASH * m) + BYTES_PER_ACTIVATION);
    var b := Min(U64_MAX, Min(U64_MAX, BYTES_PER_HASH * n) + BYTES_PER_ACTIVATION);
    assert a <= b;
    MulMonotone(a, b, byteCost);
  }

  // 150 bytes an entry, 170 an activation and one yocto a request, unless a counter saturates.
  lemma CostExact(n: nat, byteCost: nat)
    ensures CostForHashes(n, byteCost) <= 0xFFFF_FFFF_FFFF_FFFF_FFFF_FFFF_FFFF_FFFF
    ensures 150 * n + 170 <= 0xFFFF_FFFF_FFFF_FFFF
            && byteCost * (150 * n + 170) + n <= 0xFFFF_FFFF_FFFF_FFFF_FFFF_FFFF_FFFF_FFFF ==>
              CostForHashes(n, byteCost) == byteCost * (150 * n + 170) + n
  {
  }

  // ----- Reading the proposal -----

  // `str::split(',')`
  function Split(csv: string): (parts: seq<string>)
    ensures parts != []
  {
    if csv == "" then [""]
    else
      var rest := Split(csv[1..]);
      if csv[0] == ',' then [""] + rest else [[csv[0]] + rest[0]] + rest[1..]
  }

  function Join(parts: seq<string>): string
    requires parts != []
  {
    if |parts| == 1 then parts[0] else parts[0] + "," + Join(parts[1..])
  }

  ghost predicate NoCommas(parts: seq<string>) { forall p :: p in parts ==> ',' !in p }

  // The parts with one more character at the front.
  function Longer(c: char, parts: seq<string>): seq<string>
    requires parts != []
  {
    [[c] + parts[0]] + parts[1..]
  }

  lemma JoinLonger(c: char, parts: seq<string>)
    requires parts != []
    ensures Join(Longer(c, parts)) == [c] + Join(parts)
  {
    var first, rest := parts[0], parts[1..];
    assert Longer(c, parts)[1..] == rest;
    if rest != [] {
      assert ([c] + first) + "," + Join(rest) == [c] + (first + "," + Join(rest));
    }
  }

  lemma NoCommasLonger(c: char, parts: seq<string>)
    requires parts != [] && NoCommas(parts) && c != ','
    ensures NoCommas(Longer(c, parts))
  {
    assert parts[0] in parts;
    forall p | p in Longer(c, parts) ensures ',' !in p {
      assert p == [c] + parts[0] || p in parts;
    }
  }

  lemma {:induction false} SplitJoins(csv: string)
    ensures Join(Split(csv)) == csv && NoCommas(Split(csv))
  {
    if csv != "" {
      var rest := Split(csv[1..]);
      SplitJoins(csv[1..]);
      assert csv == [csv[0]] + csv[1..];
      if csv[0] == ',' {
        assert ([""] + rest)[1..] == rest;
      } else {
        JoinLonger(csv[0], rest);
        NoCommasLonger(csv[0], rest);
        assert Split(csv) == Longer(csv[0], rest);
      }
    }
  }

  lemma {:induction false} SplitWord(p: string)
    requires ',' !in p
    ensures Split(p) == [p]
  {
    if p != "" {
      assert p[0] in p;
      SplitWord(p[1..]);
      assert p == [p[0]] + p[1..];
    }
  }

  lemma {:induction false} SplitAfter(p: string, tail: string)
    requires ',' !in p
    ensures Split(p + "," + tail) == [p] + Split(tail)
  {
    var s := p + "," + tail;
    if p == "" {
      assert s[1..] == tail;
    } else {
      assert s[0] == p[0] && p[0] in p && s[1..] == p[1..] + "," + tail;
      SplitAfter(p[1..], tail);
      assert p == [p[0]] + p[1..];
      assert ([p[1..]] + Split(tail))[1..] == Split(tail);
    }
  }

  // The parts are the only list without commas that joins to the text.
  lemma {:induction false} SplitIff(csv: string, parts: seq<string>)
    requires parts != []
    ensures parts == Split(csv) <==> NoCommas(parts) && Join(parts) == csv
    decreases |parts|
  {
    SplitJoins(csv);
    if NoCommas(parts) && Join(parts) == csv {
      assert parts[0] in parts;
      if |parts| == 1 {
        SplitWord(parts[0]);
        assert parts == [parts[0]];
      } else {
        assert NoCommas(parts[1..]);
        SplitIff(Join(parts[1..]), parts[1..]);
        SplitAfter(parts[0], Join(parts[1..]));
        assert parts == [parts[0]] + parts[1..];
      }
    }
  }

  predicate IsHash(s: string) { |s| == 64 && forall i :: 0 <= i < 64 ==> '0' <= s[i] <= '9' || 'a' <= s[i] <= 'f' }

  // `HashEntry::from_raw` on an already trimmed text
  function FromRaw(s: string): HashEntry { HashEntry(s, if IsHash(s) then Pending else Invalid) }

  function Load(csv: string, trim: string -> string): seq<HashEntry> {
    var parts := Split(csv);
    seq(|parts|, i requires 0 <= i < |parts| => FromRaw(trim(parts[i])))
  }

  function PendingCount(hashes: seq<HashEntry>): nat {
    if hashes == [] then 0 else (if hashes[0].status.Pending? then 1 else 0) + PendingCount(hashes[1..])
  }

  function Loaded(hashes: seq<HashEntry>): Activation {
    Activation(if PendingCount(hashes) == 0 then Finished else Ready(0), hashes, PendingCount(hashes))
  }

  lemma {:induction false} PendingIsOpen(hashes: seq<HashEntry>)
    requires forall i :: 0 <= i < |hashes| ==> !hashes[i].status.Signing?
    ensures PendingCount(hashes) == Open(hashes)
  {
    if hashes != [] { PendingIsOpen(hashes[1..]); }
  }

  lemma HashIff(s: string)
    ensures IsHash(s) <==> |s| == 64 && forall c :: c in s ==> c in "0123456789abcdef"
  {
    forall c: char ensures c in "0123456789abcdef" <==> '0' <= c <= '9' || 'a' <= c <= 'f' {
      HexDigits(c);
    }
    if forall c :: c in s ==> c in "0123456789abcdef" {
      forall i | 0 <= i < |s| ensures '0' <= s[i] <= '9' || 'a' <= s[i] <= 'f' {
        assert s[i] in s;
      }
    }
  }

  lemma HexDigits(c: char)
    ensures c in "0123456789abcdef" <==> '0' <= c <= '9' || 'a' <= c <= 'f'
  {
    var d := "0123456789abcdef";
    if '0' <= c <= '9' {
      assert d[c as int - '0' as int] == c;
    } else if 'a' <= c <= 'f' {
      assert d[c as int - 'a' as int + 10] == c;
    }
  }

  lemma LoadStatuses(csv: string, trim: string -> string)
    ensures |Load(csv, trim)| == |Split(csv)|
    ensures Inv(Loaded(Load(csv, trim))) && NothingStranded(Loaded(Load(csv, trim)))
    ensures forall i :: 0 <= i < |Load(csv, trim)| ==>
              var e := Load(csv, trim)[i];
              && e.payload == trim(Split(csv)[i])
              && e.status == if |e.payload| == 64 && forall c :: c in e.payload ==> c in "0123456789abcdef"
                             then Pending else Invalid
  {
    PendingIsOpen(Load(csv, trim));
    LoadKeeps(Load(csv, trim));
    forall i | 0 <= i < |Load(csv, trim)| ensures
      IsHash(Load(csv, trim)[i].payload) <==>
      |Load(csv, trim)[i].payload| == 64 && forall c :: c in Load(csv, trim)[i].payload ==> c in "0123456789abcdef"
    {
      HashIff(Load(csv, trim)[i].payload);
    }
  }

  datatype Reply =
    | FetchFailed
    | Proposal(status: string, receiver: Option<string>, methods: seq<string>, payloadHashes: Option<string>)

  // `receiver` is None for proposals that are not function calls.
  predicate Acceptable(r: Reply) {
    && r.Proposal? && r.status == "Approved"
    && r.receiver == Some("v1.signer")
    && r.methods != [] && r.methods[0] == "sign"
    && r.payloadHashes.Some? && |Split(r.payloadHashes.value)| <= MAX_HASHES
  }

  // What an activation that holds hashes stems from: an approved request to the signer whose
  // description lists at most 200 hashes, these.
  ghost predicate StemsFrom(a: Activation, r: Reply, trim: string -> string) {
    && r.Proposal? && r.status == "Approved" && r.receiver == Some("v1.signer")
    && |r.methods| > 0 && r.methods[0] == "sign" && r.payloadHashes.Some?
    && |a.hashes| <= 200 && exists parts :: Lists(parts, a.hashes, r.payloadHashes.value, trim)
  }

  // The parts of the text between its commas, trimmed, are the payloads.
  ghost predicate Lists(parts: seq<string>, hashes: seq<HashEntry>, csv: string, trim: string -> string) {
    && |parts| == |hashes| && parts != []
    && NoCommas(parts) && Join(parts) == csv
    && forall i :: 0 <= i < |parts| ==> hashes[i].payload == trim(parts[i])
  }

  ghost predicate ActivationOk(a: Activation, origin: Option<Reply>, trim: string -> string) {
    if a.status.Loading? then a == Activation(Loading, [], 0)
    else Inv(a) && origin.Some? && StemsFrom(a, origin.value, trim)
  }

  lemma StepKeepsOk(a: Activation, b: Activation, origin: Option<Reply>, trim: string -> string)
    requires ActivationOk(a, origin, trim) && !a.status.Loading? && Step(a, b)
    ensures ActivationOk(b, origin, trim) && !b.status.Loading?
  {
    StepKeeps(a, b);
    StemsKept(a, b, origin.value, trim);
  }

  lemma LoadedOk(r: Reply, trim: string -> string)
    requires Acceptable(r)
    ensures ActivationOk(Loaded(Load(r.payloadHashes.value, trim)), Some(r), trim)
    ensures |Load(r.payloadHashes.value, trim)| <= 200
    ensures forall e :: e in Load(r.payloadHashes.value, trim) ==> !e.status.Signing?
  {
    LoadStatuses(r.payloadHashes.value, trim);
    LoadStems(r, trim);
  }

  lemma LoadStems(r: Reply, trim: string -> string)
    requires Acceptable(r)
    ensures StemsFrom(Loaded(Load(r.payloadHashes.value, trim)), r, trim)
  {
    SplitJoins(r.payloadHashes.value);
    assert Lists(Split(r.payloadHashes.value), Load(r.payloadHashes.value, trim), r.payloadHashes.value, trim);
  }

  lemma StemsKept(a: Activation, b: Activation, r: Reply, trim: string -> string)
    requires StemsFrom(a, r, trim) && EntriesKept(a, b)
    ensures StemsFrom(b, r, trim)
  {
    var parts :| Lists(parts, a.hashes, r.payloadHashes.value, trim);
    assert Lists(parts, b.hashes, r.payloadHashes.value, trim);
  }

  // ----- The contract -----

  datatype Started = Panic | Refund(amount: nat) | Fetching

  class Contract {
    const bootstrapped: bool
    const trim: string -> string
    // The proposals that the loaded activations were read from.
    ghost var origin: map<nat, Reply>
    var activations: map<nat, Activation>
    // Requests to the signer whose callback is due, as (proposal, index).
    var inFlight: multiset<(nat, nat)>

    ghost predicate Valid()
      reads this
    {
      && (forall p <- activations :: ActivationOk(activations[p], Origin(p), trim))
      && (forall p: nat, i: nat :: inFlight[(p, i)] == Due(p, i))
    }

    ghost function Origin(p: nat): Option<Reply>
      reads this
    {
      if p in origin then Some(origin[p]) else None
    }

    function Due(p: nat, i: nat): nat
      reads this
    {
      if p in activations && i < |activations[p].hashes| && activations[p].hashes[i].status.Signing? then 1 else 0
    }

    constructor (bootstrapped: bool, trim: string -> string)
      ensures Valid() && activations == map[] && inFlight == multiset{}
      ensures this.bootstrapped == bootstrapped && this.trim == trim
    {
      this.bootstrapped, this.trim := bootstrapped, trim;
      activations, inFlight, origin := map[], multiset{}, map[];
    }

    method Activate(p: nat, attached: nat, byteCost: nat) returns (r: Started)
      requires Valid()
      modifies this`activations
      ensures Valid()
      ensures r.Fetching? <==> bootstrapped && p !in old(activations) && attached >= CostForHashes(200, byteCost)
      ensures r.Fetching? ==> activations == old(activations)[p := Activation(Loading, [], 0)]
      ensures !r.Fetching? ==> activations == old(activations)
      ensures r.Refund? <==> bootstrapped && p in old(activations) && !old(activations)[p].status.Loading?
      ensures r.Refund? ==> r.amount == attached
    {
      if !bootstrapped { return Panic; }
      if p in activations {
        if activations[p].status.Loading? { return Panic; }
        return Refund(attached);
      }
      if attached < CostForHashes(MAX_HASHES, byteCost) { return Panic; }
      activations := activations[p := Activation(Loading, [], 0)];
      return Fetching;
    }

    // The payer gets back everything, or everything but the cost of what was loaded.
    method OnGetProposal(p: nat, attached: nat, byteCost: nat, reply: Reply) returns (refund: nat)
      requires Valid() && p in activations && activations[p].status.Loading?
      requires attached >= CostForHashes(200, byteCost)
      modifies this`activations, this`origin
      ensures Valid() && inFlight == old(inFlight)
      ensures p in activations <==>
                && reply.Proposal? && reply.status == "Approved" && reply.receiver == Some("v1.signer")
                && |reply.methods| > 0 && reply.methods[0] == "sign"
                && reply.payloadHashes.Some? && |Split(reply.payloadHashes.value)| <= 200
      ensures p !in activations ==> refund == attached && activations == old(activations) - {p}
      ensures p in activations ==>
                var hashes := Load(reply.payloadHashes.value, trim);
                && refund + CostForHashes(|hashes|, byteCost) == attached
                && activations == old(activations)[p := Loaded(hashes)]
                && origin == old(origin)[p := reply]
    {
      if !Acceptable(reply) {
        activations := activations - {p};
        return attached;
      }
      var hashes := Load(reply.payloadHashes.value, trim);
      LoadedOk(reply, trim);
      CostMonotone(|hashes|, MAX_HASHES, byteCost);
      activations, origin := activations[p := Loaded(hashes)], origin[p := reply];
      return attached - CostForHashes(|hashes|, byteCost);
    }

    // `budget` is the number of requests the attached gas pays for; None is a panic.
    method Ping(p: nat, budget: nat) returns (dispatched: Option<nat>)
      requires Valid()
      modifies this`activations, this`inFlight
      ensures Valid()
      ensures dispatched.None? <==> !(p in old(activations) && old(activations)[p].status.Ready?)
      ensures dispatched.None? ==> activations == old(activations) && inFlight == old(inFlight)
      ensures dispatched.Some? ==>
                && old(activations)[p].status.cursor <= |old(activations)[p].hashes|
                && activations == old(activations)[p := PingWith(old(activations)[p], budget)]
                && dispatched.value <= budget
                && (activations[p].status.cursor < |activations[p].hashes| ==> dispatched.value == budget)
                && |inFlight| == |old(inFlight)| + dispatched.value
    {
      if p !in activations || !activations[p].status.Ready? { return None; }
      var a := activations[p];
      var hashes, cursor, sent, requests := SendBatch(p, a.hashes, a.status.cursor, budget);
      var b := Activation(Ready(cursor), hashes, a.unresolved);
      PingWithPings(a, budget);
      StepKeepsOk(a, b, Origin(p), trim);
      activations := activations[p := b];
      inFlight := inFlight + requests;
      return Some(sent);
    }

    // Runs only for a request that is due; the entry is then still Signing.
    method OnSign(p: nat, i: nat, answer: Answer)
      requires Valid() && (p, i) in inFlight
      modifies this`activations, this`inFlight
      ensures Valid()
      ensures p in old(activations) && i < |old(activations)[p].hashes| && old(activations)[p].hashes[i].status.Signing?
      ensures activations == old(activations)[p := Resolve(old(activations)[p], i, answer)]
      ensures p in activations && Answered(old(activations)[p].hashes, activations[p].hashes, i, answer)
      ensures inFlight == old(inFlight) - multiset{(p, i)}
    {
      assert Due(p, i) == 1;
      var a := activations[p];
      StepKeepsOk(a, Resolve(a, i, answer), Origin(p), trim);
      ResolveMeans(a, i, answer);
      activations, inFlight := activations[p := Resolve(a, i, answer)], inFlight - multiset{(p, i)};
    }

    method RetryFailed(p: nat) returns (reset: Option<nat>)
      requires Valid()
      modifies this`activations
      ensures Valid()
      ensures reset.None? <==> p !in old(activations)
      ensures reset.None? ==> activations == old(activations)
      ensures reset.Some? ==>
                && activations == old(activations)[p := Retry(old(activations)[p])]
                && reset.value == Failed(old(activations)[p].hashes)
    {
      if p !in activations { return None; }
      var a := activations[p];
      var b, count := RetryEntries(a);
      if count > 0 {
        StepKeepsOk(a, b, Origin(p), trim);
        assert forall i :: 0 <= i < |a.hashes| ==> (b.hashes[i].status.Signing? <==> a.hashes[i].status.Signing?);
        activations := activations[p := b];
      }
      return Some(count);
    }
  }

  // Entry `i` has its signature, or failed without one of 64 bytes, and no other entry changed.
  ghost predicate Answered(before: seq<HashEntry>, after: seq<HashEntry>, i: nat, answer: Answer) {
    && i < |before| == |after|
    && after[i].payload == before[i].payload
    && after[i].status == (if answer.Signature? && |answer.bytes| == 64 then Signed(answer.bytes) else SignFailed)
    && forall j :: 0 <= j < |before| && j != i ==> after[j] == before[j]
  }

  lemma ResolveMeans(a: Activation, i: nat, answer: Answer)
    requires i < |a.hashes| && a.hashes[i].status.Signing?
    ensures Answered(a.hashes, Resolve(a, i, answer).hashes, i, answer)
  {
  }

  // After any calls, what is signed or being signed was listed by an approved proposal.
  lemma SignedWasApproved(c: Contract, p: nat, i: nat)
    requires c.Valid() && p in c.activations && i < |c.activations[p].hashes|
    requires c.activations[p].hashes[i].status.Signed? || c.activations[p].hashes[i].status.Signing?
    ensures p in c.origin && c.origin[p].Proposal? && c.origin[p].status == "Approved"
    ensures c.origin[p].receiver == Some("v1.signer") && c.origin[p].payloadHashes.Some?
    ensures exists part :: part in Split(c.origin[p].payloadHashes.value)
                           && c.trim(part) == c.activations[p].hashes[i].payload
  {
    var a, csv := c.activations[p], c.origin[p].payloadHashes.value;
    var parts :| Lists(parts, a.hashes, csv, c.trim);
    SplitIff(csv, parts);
    assert parts[i] in Split(csv);
  }

  ghost predicate FailedFirst(hashes: seq<HashEntry>, k: nat) {
    k < |hashes| && hashes[k].status.SignFailed? && forall j :: 0 <= j < k ==> !hashes[j].status.SignFailed?
  }

  // What a retry does to each entry and to the cursor.
  lemma RetryMeans(a: Activation)
    ensures |Retry(a).hashes| == |a.hashes|
    ensures forall i :: 0 <= i < |a.hashes| ==>
              Retry(a).hashes[i] ==
              if a.hashes[i].status.SignFailed? then HashEntry(a.hashes[i].payload, Pending) else a.hashes[i]
    ensures (forall e :: e in a.hashes ==> !e.status.SignFailed?) ==> Retry(a) == a
    ensures forall k :: 0 <= k < |a.hashes| && FailedFirst(a.hashes, k) ==> Retry(a).status == Ready(k)
  {
    var f := FirstFailed(a.hashes);
    if f < |a.hashes| { assert a.hashes[f] in a.hashes; }
  }

  // The loop of `ping` over the entries of activation `p`, with the requests it sends.
  method SendBatch(p: nat, entries: seq<HashEntry>, from: nat, budget: nat)
    returns (hashes: seq<HashEntry>, cursor: nat, sent: nat, requests: multiset<(nat, nat)>)
    requires from <= |entries|
    ensures cursor == BatchEnd(entries, from, budget) && hashes == SendOut(entries, from, cursor)
    ensures sent <= budget && (cursor < |entries| ==> sent == budget) && |requests| == sent
    ensures forall q: nat, i: nat :: requests[(q, i)] ==
              if q == p && from <= i < cursor && entries[i].status.Pending? then 1 else 0
  {
    hashes, cursor, sent, requests := entries, from, 0, multiset{};
    while cursor < |hashes|
      invariant from <= cursor <= |hashes| == |entries| && sent <= budget && |requests| == sent
      invariant hashes == SendOut(entries, from, cursor)
      invariant forall q: nat, i: nat :: requests[(q, i)] ==
                  if q == p && from <= i < cursor && entries[i].status.Pending? then 1 else 0
      invariant BatchEnd(entries, from, budget) == BatchEnd(entries, cursor, budget - sent)
    {
      if !hashes[cursor].status.Pending? {
        cursor := cursor + 1;
        continue;
      }
      if sent == budget { break; }
      requests := requests + multiset{(p, cursor)};
      hashes := hashes[cursor := hashes[cursor].(status := Signing)];
      cursor := cursor + 1;
      sent := sent + 1;
    }
  }

  // The loop of `retry_failed` over the entries.
  method RetryEntries(a: Activation) returns (b: Activation, count: nat)
    ensures b == Retry(a) && count == Failed(a.hashes)
    ensures count == 0 ==> b == a
  {
    var hashes := a.hashes;
    count := 0;
    var first: Option<nat> := None;
    for i := 0 to |hashes|
      invariant |hashes| == |a.hashes|
      invariant forall j :: 0 <= j < i ==> hashes[j] == Reset(a.hashes[j])
      invariant forall j :: i <= j < |hashes| ==> hashes[j] == a.hashes[j]
      invariant count == Failed(a.hashes[..i])
      invariant first.None? ==> forall j :: 0 <= j < i ==> !a.hashes[j].status.SignFailed?
      invariant first.Some? ==>
                  && first.value < i && a.hashes[first.value].status.SignFailed?
                  && forall j :: 0 <= j < first.value ==> !a.hashes[j].status.SignFailed?
    {
      FailedSnoc(a.hashes, i);
      if hashes[i].status.SignFailed? {
        hashes := hashes[i := hashes[i].(status := Pending)];
        count := count + 1;
        if first.None? { first := Some(i); }
      }
    }
    assert a.hashes[..|a.hashes|] == a.hashes && hashes == ResetAll(a.hashes);
    OpenReset(a.hashes);
    ghost var f := FirstFailed(a.hashes);
    assert f == if first.Some? then first.value else |hashes|;
    b := a;
    if count > 0 {
      b := Activation(Ready(if first.Some? then first.value else 0), hashes, a.unresolved + count);
    }
  }
}
