// The payment-list contract contracts/bulk-payment/src/lib.rs: storage credits, the approval
// state machine and payouts in gas-limited batches.
module BulkPayment {
  import opened Wrappers
  import opened Arithmetic

  datatype PaymentStatus = Pending | Paid(height: nat)

  datatype Payment = Payment(recipient: string, amount: nat, status: PaymentStatus)

  datatype ListStatus = Submitted | Approved | Rejected

  datatype PaymentList = PaymentList(token: string, submitter: string, status: ListStatus, payments: seq<Payment>)

  // A promise the contract has sent out.
  datatype Transfer = Transfer(list: string, index: nat, recipient: string, amount: nat)

  // ----- Storage cost -----

  // None is the overflow panic (and the panic for zero records).
  function StorageCost(records: nat): Option<nat> {
    if records == 0 || 216 * records > U64_MAX then None
    else
      var bytes := 216 * records;
      if bytes * 10_000_000_000_000_000_000 > U128_MAX || bytes * 10_000_000_000_000_000_000 * 11 > U128_MAX then None
      else Some(bytes * 10_000_000_000_000_000_000 * 11 / 10)
  }

  // 216 bytes a record at 10^19 yocto a byte and a tenth on top, as long as eleven times the bare
  // price fits.
  lemma StorageCostIs(records: nat)
    ensures StorageCost(records) ==
            if 0 < records && records * 216 <= 0xFFFF_FFFF_FFFF_FFFF
               && records * 23_760_000_000_000_000_000_000 <= 0xFFFF_FFFF_FFFF_FFFF_FFFF_FFFF_FFFF_FFFF
            then Some(records * 2_376_000_000_000_000_000_000) else None
  {
  }

  // The division by ten never rounds, so buying in parts costs the same as buying at once.
  lemma StorageCostAdds(m: nat, n: nat)
    requires StorageCost(m + n).Some? && m > 0 && n > 0
    ensures StorageCost(m).Some? && StorageCost(n).Some?
    ensures StorageCost(m + n).value == StorageCost(m).value + StorageCost(n).value
  {
  }

  // ----- Sums -----

  ghost function SumMap(m: map<string, nat>): nat {
    if m == map[] then 0
    else
      var k :| k in m;
      m[k] + SumMap(m - {k})
  }

  lemma {:induction false} SumMapRemove(m: map<string, nat>, k: string)
    requires k in m
    ensures SumMap(m) == m[k] + SumMap(m - {k})
    decreases |m|
  {
    var j :| j in m && SumMap(m) == m[j] + SumMap(m - {j});
    if j != k {
      SumMapRemove(m - {j}, k);
      SumMapRemove(m - {k}, j);
      assert m - {j} - {k} == m - {k} - {j};
    }
  }

  lemma SumMapPut(m: map<string, nat>, k: string, v: nat)
    ensures SumMap(m[k := v]) == SumMap(m) - (if k in m then m[k] else 0) + v
  {
    SumMapRemove(m[k := v], k);
    assert m[k := v] - {k} == m - {k};
    if k in m {
      SumMapRemove(m, k);
    } else {
      assert m - {k} == m;
    }
  }

  function Total(payments: seq<Payment>): nat {
    if payments == [] then 0 else payments[0].amount + Total(payments[1..])
  }

  function PaidTotal(payments: seq<Payment>): nat {
    if payments == [] then 0
    else (if payments[0].status.Paid? then payments[0].amount else 0) + PaidTotal(payments[1..])
  }

  function PendingTotal(payments: seq<Payment>): nat {
    if payments == [] then 0
    else (if payments[0].status.Pending? then payments[0].amount else 0) + PendingTotal(payments[1..])
  }

  function PendingCount(payments: seq<Payment>): nat {
    if payments == [] then 0 else (if payments[0].status.Pending? then 1 else 0) + PendingCount(payments[1..])
  }

  // `try_fold` with `checked_add`: fails as soon as a partial sum leaves u128.
  method CheckedTotal(payments: seq<Payment>) returns (total: Option<nat>)
    ensures total == if Total(payments) <= U128_MAX then Some(Total(payments)) else None
  {
    var acc := 0;
    for i := 0 to |payments|
      invariant acc <= U128_MAX && acc + Total(payments[i..]) == Total(payments)
    {
      assert payments[i..][1..] == payments[i + 1..];
      if acc + payments[i].amount > U128_MAX { return None; }
      acc := acc + payments[i].amount;
    }
    return Some(acc);
  }

  // ----- Payouts -----

  // Pay up to `budget` pending payments in order; None is the panic of an unpayable one.
  function Pay(payments: seq<Payment>, budget: nat, height: nat, payable: string -> bool): (r: Option<seq<Payment>>)
  {
    if payments == [] then Some([])
    else if payments[0].status.Pending? && budget == 0 then Some(payments)
    else if payments[0].status.Pending? && !payable(payments[0].recipient) then None
    else
      var first, left := payments[0], budget;
      var rest := if first.status.Pending? then Pay(payments[1..], budget - 1, height, payable)
                  else Pay(payments[1..], budget, height, payable);
      if rest.None? then None
      else Some([if first.status.Pending? then first.(status := Paid(height)) else first] + rest.value)
  }

  // `paid` is `list` with some pending payments marked paid, and nothing else changed.
  ghost predicate Settles(list: seq<Payment>, paid: seq<Payment>, height: nat, payable: string -> bool) {
    && |paid| == |list|
    && forall i :: 0 <= i < |list| ==>
         || paid[i] == list[i]
         || (list[i].status.Pending? && payable(list[i].recipient) && paid[i] == list[i].(status := Paid(height)))
  }

  // A batch pays the next `budget` pending payments, once each, and touches nothing else.
  lemma {:induction false} PayEffect(payments: seq<Payment>, budget: nat, height: nat, payable: string -> bool)
    requires Pay(payments, budget, height, payable).Some?
    ensures var paid := Pay(payments, budget, height, payable).value;
            && Settles(payments, paid, height, payable)
            && Total(paid) == Total(payments)
            && PendingCount(paid) == PendingCount(payments) - Min(budget, PendingCount(payments))
            && PaidTotal(payments) <= PaidTotal(paid) <= Total(payments)
            && (PendingCount(paid) == 0 ==> PaidTotal(paid) == Total(payments))
  {
    PaidBound(payments);
    if payments != [] {
      var first := payments[0];
      if first.status.Paid? || budget > 0 {
        var left := if first.status.Pending? then budget - 1 else budget;
        PayEffect(payments[1..], left, height, payable);
        var paid := Pay(payments, budget, height, payable).value;
        var rest := Pay(payments[1..], left, height, payable).value;
        assert paid[1..] == rest;
        forall i | 0 < i < |payments|
          ensures paid[i] == rest[i - 1] && payments[i] == payments[1..][i - 1]
        {
        }
      }
    }
  }

  lemma PayHead(payments: seq<Payment>, budget: nat, height: nat, payable: string -> bool, left: nat)
    requires Pay(payments, budget, height, payable).Some? && payments != []
    requires if payments[0].status.Pending? then budget > 0 && left == budget - 1 else left == budget
    ensures var paid := Pay(payments, budget, height, payable).value;
            && paid != [] && paid[0].status.Paid? && Pay(payments[1..], left, height, payable) == Some(paid[1..])
  {
  }

  // No payment overtakes a pending one before it.
  lemma {:induction false} PaysInOrder(payments: seq<Payment>, budget: nat, height: nat, payable: string -> bool,
                                       i: nat, j: nat)
    requires Pay(payments, budget, height, payable).Some? && i < j < |payments|
    ensures var paid := Pay(payments, budget, height, payable).value;
            && |paid| == |payments|
            && (paid[j] != payments[j] ==> paid[i].status.Paid?)
  {
    PayLength(payments, budget, height, payable);
    if payments[0].status.Paid? || budget > 0 {
      var left := if payments[0].status.Pending? then budget - 1 else budget;
      PayHead(payments, budget, height, payable, left);
      if i > 0 { PaysInOrder(payments[1..], left, height, payable, i - 1, j - 1); }
    }
  }

  lemma {:induction false} PayLength(payments: seq<Payment>, budget: nat, height: nat, payable: string -> bool)
    requires Pay(payments, budget, height, payable).Some?
    ensures |Pay(payments, budget, height, payable).value| == |payments|
  {
    if payments != [] && (payments[0].status.Paid? || budget > 0) {
      var left := if payments[0].status.Pending? then budget - 1 else budget;
      PayHead(payments, budget, height, payable, left);
      PayLength(payments[1..], left, height, payable);
    }
  }

  lemma {:induction false} PaidBound(payments: seq<Payment>)
    ensures PaidTotal(payments) + PendingTotal(payments) == Total(payments) && PendingCount(payments) <= |payments|
    ensures PendingCount(payments) == 0 ==> PaidTotal(payments) == Total(payments)
    ensures PendingCount(payments) == 0 <==> forall i :: 0 <= i < |payments| ==> payments[i].status.Paid?
  {
    if payments != [] {
      PaidBound(payments[1..]);
      assert forall i :: 1 <= i < |payments| ==> payments[i] == payments[1..][i - 1];
    }
  }

  ghost predicate AllPayable(payments: seq<Payment>, payable: string -> bool) {
    forall i :: 0 <= i < |payments| && payments[i].status.Pending? ==> payable(payments[i].recipient)
  }

  lemma {:induction false} PaySucceeds(payments: seq<Payment>, budget: nat, height: nat, payable: string -> bool)
    requires AllPayable(payments, payable)
    ensures Pay(payments, budget, height, payable).Some?
  {
    if payments != [] {
      assert forall i :: 0 <= i < |payments[1..]| ==> payments[1..][i] == payments[i + 1];
      if payments[0].status.Pending? {
        if budget > 0 { PaySucceeds(payments[1..], budget - 1, height, payable); }
      } else {
        PaySucceeds(payments[1..], budget, height, payable);
      }
    }
  }

  // What a call leaves of a list; one that panics leaves it as it was.
  function Batch(payments: seq<Payment>, budget: nat, height: nat, payable: string -> bool): seq<Payment> {
    var paid := Pay(payments, budget, height, payable);
    if paid.Some? then paid.value else payments
  }

  // Calls with these budgets, at these heights, one after the other.
  function PayAll(payments: seq<Payment>, batches: seq<(nat, nat)>, payable: string -> bool): seq<Payment>
    decreases |batches|
  {
    if batches == [] then payments
    else PayAll(Batch(payments, batches[0].0, batches[0].1, payable), batches[1..], payable)
  }

  lemma BatchEffect(payments: seq<Payment>, budget: nat, height: nat, payable: string -> bool)
    ensures var paid := Batch(payments, budget, height, payable);
            && Settles(payments, paid, height, payable) && Total(paid) == Total(payments)
            && (AllPayable(payments, payable) <==> AllPayable(paid, payable))
            && (AllPayable(payments, payable) && budget > 0 && PendingCount(payments) > 0 ==>
                  PendingCount(paid) < PendingCount(payments))
  {
    if AllPayable(payments, payable) { PaySucceeds(payments, budget, height, payable); }
    if Pay(payments, budget, height, payable).Some? { PayEffect(payments, budget, height, payable); }
    var paid := Batch(payments, budget, height, payable);
    forall i | 0 <= i < |payments| && payments[i].status.Pending? && !payable(payments[i].recipient)
      ensures paid[i] == payments[i]
    {
    }
  }

  // "Keep calling until this returns 0" works, one pending payment per call at least, ...
  lemma {:induction false} BatchesFinish(payments: seq<Payment>, batches: seq<(nat, nat)>, payable: string -> bool)
    requires AllPayable(payments, payable)
    requires |batches| >= PendingCount(payments) && forall i :: 0 <= i < |batches| ==> batches[i].0 > 0
    ensures PendingCount(PayAll(payments, batches, payable)) == 0
    ensures PaidTotal(PayAll(payments, batches, payable)) == Total(payments)
    decreases |batches|
  {
    PaidBound(payments);
    if batches != [] {
      var next := Batch(payments, batches[0].0, batches[0].1, payable);
      BatchEffect(payments, batches[0].0, batches[0].1, payable);
      PaidBound(next);
      BatchesFinish(next, batches[1..], payable);
    }
  }

  // ... but an unpayable recipient is never passed, ...
  lemma {:induction false} UnpayableNeverFinishes(payments: seq<Payment>, batches: seq<(nat, nat)>,
                                                  payable: string -> bool)
    requires !AllPayable(payments, payable)
    ensures PendingCount(PayAll(payments, batches, payable)) > 0
    decreases |batches|
  {
    PaidBound(payments);
    if batches != [] {
      BatchEffect(payments, batches[0].0, batches[0].1, payable);
      UnpayableNeverFinishes(Batch(payments, batches[0].0, batches[0].1, payable), batches[1..], payable);
    }
  }

  // ... so some calls finish a list exactly when every pending recipient is payable.
  lemma FinishesIff(payments: seq<Payment>, payable: string -> bool)
    ensures (exists batches :: PendingCount(PayAll(payments, batches, payable)) == 0) <==> AllPayable(payments, payable)
  {
    if AllPayable(payments, payable) {
      var batches := seq(PendingCount(payments), i => (1, 0));
      BatchesFinish(payments, batches, payable);
      assert PendingCount(PayAll(payments, batches, payable)) == 0;
    } else {
      forall batches ensures PendingCount(PayAll(payments, batches, payable)) > 0 {
        UnpayableNeverFinishes(payments, batches, payable);
      }
    }
  }

  // Two payments of which the first has no account to go to: no calls change the list.
  lemma {:induction false} OneBadRecipient(batches: seq<(nat, nat)>, payable: string -> bool)
    requires !payable("not an account") && payable("alice.near")
    ensures var list := [Payment("not an account", 1, Pending), Payment("alice.near", 1, Pending)];
            PayAll(list, batches, payable) == list
    decreases |batches|
  {
    if batches != [] { OneBadRecipient(batches[1..], payable); }
  }

  predicate IsListId(id: string) {
    |id| == 64 && forall i :: 0 <= i < 64 ==> '0' <= id[i] <= '9' || 'a' <= id[i] <= 'f' || 'A' <= id[i] <= 'F'
  }

  lemma ListIdIff(id: string)
    ensures IsListId(id) <==> |id| == 64 && forall c :: c in id ==> c in "0123456789abcdefABCDEF"
  {
    forall c: char
      ensures c in "0123456789abcdefABCDEF" <==> '0' <= c <= '9' || 'a' <= c <= 'f' || 'A' <= c <= 'F'
    {
      ListIdDigit(c);
    }
    if forall c :: c in id ==> c in "0123456789abcdefABCDEF" {
      forall i | 0 <= i < |id| ensures '0' <= id[i] <= '9' || 'a' <= id[i] <= 'f' || 'A' <= id[i] <= 'F' {
        assert id[i] in id;
      }
    }
  }

  lemma ListIdDigit(c: char)
    ensures c in "0123456789abcdefABCDEF" <==> '0' <= c <= '9' || 'a' <= c <= 'f' || 'A' <= c <= 'F'
  {
    var d := "0123456789abcdefABCDEF";
    if '0' <= c <= '9' {
      assert d[c as int - '0' as int] == c;
    } else if 'a' <= c <= 'f' {
      assert d[c as int - 'a' as int + 10] == c;
    } else if 'A' <= c <= 'F' {
      assert d[c as int - 'A' as int + 16] == c;
    }
  }

  lemma RecordsAre(inputs: seq<(string, nat)>)
    ensures |Records(inputs)| == |inputs|
    ensures forall i :: 0 <= i < |inputs| ==> Records(inputs)[i] == Payment(inputs[i].0, inputs[i].1, Pending)
  {
  }

  // The payments are the submitted ones, whatever has become of them since.
  ghost predicate AsSubmitted(payments: seq<Payment>, inputs: seq<(string, nat)>) {
    && |payments| == |inputs|
    && forall i :: 0 <= i < |inputs| ==> payments[i].recipient == inputs[i].0 && payments[i].amount == inputs[i].1
  }

  lemma SettlesAsSubmitted(list: seq<Payment>, paid: seq<Payment>, height: nat, payable: string -> bool,
                           inputs: seq<(string, nat)>)
    requires AsSubmitted(list, inputs) && Settles(list, paid, height, payable)
    ensures AsSubmitted(paid, inputs)
  {
  }

  ghost function Sizes(lists: map<string, PaymentList>): map<string, nat> {
    map id | id in lists :: |lists[id].payments|
  }

  // Credits and submitted records add up to what was bought.
  ghost predicate CreditsOk(lists: map<string, PaymentList>, credits: map<string, nat>, purchased: nat) {
    SumMap(credits) + SumMap(Sizes(lists)) == purchased
  }

  // Only approved lists have paid payments, and their totals fit u128.
  ghost predicate StatusOk(list: PaymentList) {
    && (list.status != Approved ==> forall i :: 0 <= i < |list.payments| ==> list.payments[i].status.Pending?)
    && (list.status == Approved ==> Total(list.payments) <= U128_MAX)
  }

  // ----- Funding -----

  lemma CurrencyIs(token: string)
    ensures Currency("native") == Currency("near") == Currency("NEAR") == "NEAR"
    ensures token != "native" && token != "near" ==> Currency(token) == token
  {
  }

  // The three names the contract has for the native token are one currency.
  function Currency(token: string): string { if token in ["native", "near", "NEAR"] then "NEAR" else token }

  // The totals of the approved lists in one currency, what was paid out of them and what is owed.
  ghost function ApprovedIn(lists: map<string, PaymentList>, c: string): map<string, nat> {
    map id | id in lists && lists[id].status == Approved && Currency(lists[id].token) == c :: Total(lists[id].payments)
  }

  ghost function PaidIn(lists: map<string, PaymentList>, c: string): map<string, nat> {
    map id | id in ApprovedIn(lists, c) :: PaidTotal(lists[id].payments)
  }

  ghost function OwedIn(lists: map<string, PaymentList>, c: string): map<string, nat> {
    map id | id in ApprovedIn(lists, c) :: PendingTotal(lists[id].payments)
  }

  // What was received in each currency is what the approved lists in it add up to.
  ghost predicate FundsOk(lists: map<string, PaymentList>, received: map<string, nat>) {
    forall c: string :: Balance(received, c) == SumMap(ApprovedIn(lists, c))
  }

  lemma {:induction false} SumMapAdd(m: map<string, nat>, a: map<string, nat>, b: map<string, nat>)
    requires m.Keys == a.Keys == b.Keys && forall k <- m :: m[k] == a[k] + b[k]
    ensures SumMap(m) == SumMap(a) + SumMap(b)
    decreases |m|
  {
    if m == map[] {
      assert a == map[] && b == map[];
    } else {
      var k :| k in m;
      assert k in a.Keys && k in b.Keys;
      SumMapRemove(m, k);
      SumMapRemove(a, k);
      SumMapRemove(b, k);
      SumMapAdd(m - {k}, a - {k}, b - {k});
    }
  }

  // Received is paid plus owed, so no currency pays out more than came in.
  lemma PaidPlusOwed(lists: map<string, PaymentList>, received: map<string, nat>, c: string)
    requires FundsOk(lists, received)
    ensures SumMap(PaidIn(lists, c)) + SumMap(OwedIn(lists, c)) == Balance(received, c)
    ensures SumMap(PaidIn(lists, c)) <= Balance(received, c)
  {
    var m := ApprovedIn(lists, c);
    forall id <- m ensures m[id] == PaidIn(lists, c)[id] + OwedIn(lists, c)[id] {
      PaidBound(lists[id].payments);
    }
    SumMapAdd(m, PaidIn(lists, c), OwedIn(lists, c));
  }

  function Add(received: map<string, nat>, c: string, amount: nat): map<string, nat> {
    received[c := Balance(received, c) + amount]
  }

  lemma ApprovalAdds(lists: map<string, PaymentList>, id: string, c: string)
    requires id in lists && lists[id].status == Submitted
    ensures SumMap(ApprovedIn(lists[id := lists[id].(status := Approved)], c)) ==
            SumMap(ApprovedIn(lists, c)) + if c == Currency(lists[id].token) then Total(lists[id].payments) else 0
  {
    var after := lists[id := lists[id].(status := Approved)];
    if c == Currency(lists[id].token) {
      assert ApprovedIn(after, c) == ApprovedIn(lists, c)[id := Total(lists[id].payments)];
      SumMapPut(ApprovedIn(lists, c), id, Total(lists[id].payments));
    } else {
      assert ApprovedIn(after, c) == ApprovedIn(lists, c);
    }
  }

  // An approval that pays something in another currency leaves the list's own short.
  lemma OtherCurrencyFallsShort(lists: map<string, PaymentList>, received: map<string, nat>, id: string, paying: string)
    requires FundsOk(lists, received) && id in lists && lists[id].status == Submitted
    requires paying != Currency(lists[id].token) && Total(lists[id].payments) > 0
    ensures var own := Currency(lists[id].token);
            Balance(Add(received, paying, Total(lists[id].payments)), own)
            < SumMap(ApprovedIn(lists[id := lists[id].(status := Approved)], own))
  {
    ApprovalAdds(lists, id, Currency(lists[id].token));
  }

  // An approval keeps this exactly when it pays in the list's currency, or pays nothing.
  lemma ApprovalKeepsFundsIff(lists: map<string, PaymentList>, received: map<string, nat>, id: string, paying: string)
    requires FundsOk(lists, received) && id in lists && lists[id].status == Submitted
    ensures FundsOk(lists[id := lists[id].(status := Approved)], Add(received, paying, Total(lists[id].payments))) <==>
            paying == Currency(lists[id].token) || Total(lists[id].payments) == 0
  {
    var after := lists[id := lists[id].(status := Approved)];
    var total, own := Total(lists[id].payments), Currency(lists[id].token);
    var now := Add(received, paying, total);
    forall c: string
      ensures SumMap(ApprovedIn(after, c)) == Balance(received, c) + if c == own then total else 0
      ensures Balance(now, c) == Balance(received, c) + if c == paying then total else 0
    {
      ApprovalAdds(lists, id, c);
    }
    assert Balance(now, own) == SumMap(ApprovedIn(after, own)) <==> own == paying || total == 0;
  }

  // ----- Transfers -----

  // The transfer is the one owed for a payment marked Paid.
  ghost predicate Justified(lists: map<string, PaymentList>, t: Transfer) {
    && t.list in lists && t.index < |lists[t.list].payments|
    && var p := lists[t.list].payments[t.index]; p.status.Paid? && p.recipient == t.recipient && p.amount == t.amount
  }

  // Exactly one transfer for each payment marked Paid, and no other.
  ghost predicate TransfersOk(lists: map<string, PaymentList>, transfers: multiset<Transfer>) {
    forall t: Transfer :: transfers[t] == if Justified(lists, t) then 1 else 0
  }

  // The transfer that a batch sends for a payment it marks.
  ghost predicate Sends(id: string, list: seq<Payment>, paid: seq<Payment>, t: Transfer) {
    && t.list == id && t.index < |list| == |paid| && paid[t.index] != list[t.index]
    && t.recipient == list[t.index].recipient && t.amount == list[t.index].amount
  }

  ghost predicate SentExactly(id: string, list: seq<Payment>, paid: seq<Payment>, sent: multiset<Transfer>) {
    forall t: Transfer :: sent[t] == if Sends(id, list, paid, t) then 1 else 0
  }

  lemma SendOne(id: string, list: seq<Payment>, paid: seq<Payment>, sent: multiset<Transfer>, i: nat, height: nat)
    requires i < |list| == |paid| && paid[i] == list[i] && list[i].status.Pending? && SentExactly(id, list, paid, sent)
    ensures SentExactly(id, list, paid[i := list[i].(status := Paid(height))],
                        sent + multiset{Transfer(id, i, list[i].recipient, list[i].amount)})
  {
    var after := paid[i := list[i].(status := Paid(height))];
    var mine := Transfer(id, i, list[i].recipient, list[i].amount);
    forall t: Transfer ensures (sent + multiset{mine})[t] == if Sends(id, list, after, t) then 1 else 0 {
      assert Sends(id, list, after, t) <==> Sends(id, list, paid, t) || t == mine;
      assert !Sends(id, list, paid, mine);
    }
  }

  lemma BuyKeeps(lists: map<string, PaymentList>, credits: map<string, nat>, purchased: nat, to: string, records: nat)
    requires CreditsOk(lists, credits, purchased)
    ensures CreditsOk(lists, credits[to := Balance(credits, to) + records], purchased + records)
  {
    SumMapPut(credits, to, Balance(credits, to) + records);
  }

  lemma SubmitKeeps(lists: map<string, PaymentList>, credits: map<string, nat>, transfers: multiset<Transfer>,
                    purchased: nat, submitter: string, id: string, list: PaymentList)
    requires CreditsOk(lists, credits, purchased) && TransfersOk(lists, transfers)
    requires id !in lists && Balance(credits, submitter) >= |list.payments|
    requires list.status == Submitted && StatusOk(list)
    ensures CreditsOk(lists[id := list], credits[submitter := Balance(credits, submitter) - |list.payments|], purchased)
    ensures TransfersOk(lists[id := list], transfers)
  {
    SumMapPut(credits, submitter, Balance(credits, submitter) - |list.payments|);
    SumMapPut(Sizes(lists), id, |list.payments|);
    assert Sizes(lists[id := list]) == Sizes(lists)[id := |list.payments|];
    forall t: Transfer ensures Justified(lists[id := list], t) <==> Justified(lists, t) {
    }
  }

  lemma StatusKeeps(lists: map<string, PaymentList>, credits: map<string, nat>, transfers: multiset<Transfer>,
                    purchased: nat, id: string, status: ListStatus)
    requires CreditsOk(lists, credits, purchased) && TransfersOk(lists, transfers) && id in lists
    ensures CreditsOk(lists[id := lists[id].(status := status)], credits, purchased)
    ensures TransfersOk(lists[id := lists[id].(status := status)], transfers)
  {
    var after := lists[id := lists[id].(status := status)];
    assert Sizes(after) == Sizes(lists);
    forall t: Transfer ensures Justified(after, t) <==> Justified(lists, t) {
    }
  }

  lemma PayoutKeeps(lists: map<string, PaymentList>, credits: map<string, nat>, transfers: multiset<Transfer>,
                    purchased: nat, id: string, paid: seq<Payment>, sent: multiset<Transfer>, height: nat,
                    payable: string -> bool)
    requires CreditsOk(lists, credits, purchased) && TransfersOk(lists, transfers) && id in lists
    requires Settles(lists[id].payments, paid, height, payable)
    requires SentExactly(id, lists[id].payments, paid, sent)
    ensures CreditsOk(lists[id := lists[id].(payments := paid)], credits, purchased)
    ensures TransfersOk(lists[id := lists[id].(payments := paid)], transfers + sent)
  {
    var list := lists[id].payments;
    var after := lists[id := lists[id].(payments := paid)];
    assert Sizes(after) == Sizes(lists);
    forall t: Transfer ensures (transfers + sent)[t] == if Justified(after, t) then 1 else 0 {
      if t.list == id && t.index < |list| {
        assert paid[t.index] == list[t.index] || paid[t.index] == list[t.index].(status := Paid(height));
      }
    }
  }

  lemma SubmitKeepsFunds(lists: map<string, PaymentList>, id: string, list: PaymentList)
    requires id !in lists && list.status == Submitted
    ensures forall c: string :: ApprovedIn(lists[id := list], c) == ApprovedIn(lists, c)
  {
  }

  lemma RejectKeepsFunds(lists: map<string, PaymentList>, id: string)
    requires id in lists && lists[id].status == Submitted
    ensures forall c: string :: ApprovedIn(lists[id := lists[id].(status := Rejected)], c) == ApprovedIn(lists, c)
  {
  }

  lemma PayoutKeepsFunds(lists: map<string, PaymentList>, id: string, paid: seq<Payment>)
    requires id in lists && Total(paid) == Total(lists[id].payments)
    ensures forall c: string :: ApprovedIn(lists[id := lists[id].(payments := paid)], c) == ApprovedIn(lists, c)
  {
  }

  // Every list keeps its status rules and what it was submitted with.
  ghost predicate ListsOk(lists: map<string, PaymentList>, submitted: map<string, seq<(string, nat)>>) {
    forall id <- lists :: StatusOk(lists[id]) && id in submitted && AsSubmitted(lists[id].payments, submitted[id])
  }

  lemma ListsOkPut(lists: map<string, PaymentList>, submitted: map<string, seq<(string, nat)>>, id: string,
                   list: PaymentList, inputs: seq<(string, nat)>)
    requires ListsOk(lists, submitted) && StatusOk(list) && AsSubmitted(list.payments, inputs)
    requires id in lists ==> id in submitted && submitted[id] == inputs
    ensures ListsOk(lists[id := list], submitted[id := inputs])
    ensures id in lists ==> ListsOk(lists[id := list], submitted)
  {
  }

  // ----- The whole state -----

  // `purchased` counts the records ever bought; `received` is what came with approvals, by
  // currency, and `matched` whether each paid in its list's own; `submitted` is what each list was
  // submitted with, as (recipient, amount).
  datatype State = State(lists: map<string, PaymentList>, credits: map<string, nat>, transfers: multiset<Transfer>,
                         purchased: nat, received: map<string, nat>, matched: bool,
                         submitted: map<string, seq<(string, nat)>>)

  // The sound states as a set, so that a method compares two states instead of all they hold.
  ghost function SoundStates(): iset<State> { iset s: State | Sound(s) }

  ghost predicate StateOk(s: State) { s in SoundStates() }

  ghost predicate Sound(s: State) {
    && CreditsOk(s.lists, s.credits, s.purchased)
    && TransfersOk(s.lists, s.transfers)
    && ListsOk(s.lists, s.submitted)
    && (s.matched ==> FundsOk(s.lists, s.received))
  }

  lemma BuyOk(s: State, to: string, records: nat)
    requires StateOk(s)
    ensures StateOk(s.(credits := s.credits[to := Balance(s.credits, to) + records],
                       purchased := s.purchased + records))
  {
    BuyKeeps(s.lists, s.credits, s.purchased, to, records);
  }

  lemma SubmitOk(s: State, id: string, list: PaymentList, inputs: seq<(string, nat)>)
    requires StateOk(s) && id !in s.lists && Balance(s.credits, list.submitter) >= |list.payments|
    requires list.status == Submitted && StatusOk(list) && AsSubmitted(list.payments, inputs)
    ensures StateOk(s.(lists := s.lists[id := list], submitted := s.submitted[id := inputs],
                       credits := s.credits[list.submitter := Balance(s.credits, list.submitter) - |list.payments|]))
  {
    ListsOkPut(s.lists, s.submitted, id, list, inputs);
    SubmitKeeps(s.lists, s.credits, s.transfers, s.purchased, list.submitter, id, list);
    SubmitKeepsFunds(s.lists, id, list);
  }

  lemma ApproveOk(s: State, id: string, paying: string)
    requires StateOk(s) && id in s.lists && s.lists[id].status == Submitted
    requires Total(s.lists[id].payments) <= U128_MAX
    ensures StateOk(s.(lists := s.lists[id := s.lists[id].(status := Approved)],
                       received := Add(s.received, paying, Total(s.lists[id].payments)),
                       matched := s.matched && paying == Currency(s.lists[id].token)))
  {
    ListsOkPut(s.lists, s.submitted, id, s.lists[id].(status := Approved), s.submitted[id]);
    StatusKeeps(s.lists, s.credits, s.transfers, s.purchased, id, Approved);
    if s.matched { ApprovalKeepsFundsIff(s.lists, s.received, id, paying); }
  }

  lemma RejectOk(s: State, id: string)
    requires StateOk(s) && id in s.lists && s.lists[id].status == Submitted
    ensures StateOk(s.(lists := s.lists[id := s.lists[id].(status := Rejected)]))
  {
    ListsOkPut(s.lists, s.submitted, id, s.lists[id].(status := Rejected), s.submitted[id]);
    StatusKeeps(s.lists, s.credits, s.transfers, s.purchased, id, Rejected);
    RejectKeepsFunds(s.lists, id);
  }

  lemma PayoutOk(s: State, id: string, paid: seq<Payment>, sent: multiset<Transfer>, budget: nat, height: nat,
                 payable: string -> bool)
    requires StateOk(s) && id in s.lists && s.lists[id].status == Approved
    requires Pay(s.lists[id].payments, budget, height, payable) == Some(paid)
    requires SentExactly(id, s.lists[id].payments, paid, sent)
    ensures StateOk(s.(lists := s.lists[id := s.lists[id].(payments := paid)], transfers := s.transfers + sent))
  {
    var before := s.lists[id].payments;
    PayEffect(before, budget, height, payable);
    PayoutKeeps(s.lists, s.credits, s.transfers, s.purchased, id, paid, sent, height, payable);
    PayoutKeepsFunds(s.lists, id, paid);
    SettlesAsSubmitted(before, paid, height, payable, s.submitted[id]);
    ListsOkPut(s.lists, s.submitted, id, s.lists[id].(payments := paid), s.submitted[id]);
  }

  function OnBehalf(account: Option<string>, caller: string): string {
    if account.Some? then account.value else caller
  }

  // ----- The contract; every method that panics leaves the state as it was -----

  class Contract {
    const account: string
    var lists: map<string, PaymentList>
    var credits: map<string, nat>
    var transfers: multiset<Transfer>
    ghost var purchased: nat
    ghost var received: map<string, nat>
    ghost var matched: bool
    ghost var submitted: map<string, seq<(string, nat)>>

    ghost function Now(): State
      reads this
    {
      State(lists, credits, transfers, purchased, received, matched, submitted)
    }

    ghost predicate Valid()
      reads this
    {
      StateOk(Now())
    }

    constructor (account: string)
      ensures Valid() && lists == map[] && credits == map[] && transfers == multiset{} && purchased == 0
      ensures this.account == account && received == map[] && matched
    {
      this.account := account;
      lists, credits, transfers, purchased := map[], map[], multiset{}, 0;
      received, matched, submitted := map[], true, map[];
      new;
      assert Sizes(lists) == map[];
      assert forall c: string :: ApprovedIn(lists, c) == map[];
    }

    method BuyStorage(caller: string, attached: nat, records: nat, beneficiary: Option<string>)
      returns (cost: Option<nat>)
      requires Valid()
      modifies this`credits, this`purchased
      ensures Valid()
      ensures cost.Some? <==>
                && StorageCost(records) == Some(attached)
                && Balance(old(credits), if beneficiary.Some? then beneficiary.value else caller) + records <= U128_MAX
      ensures cost.None? ==> credits == old(credits) && purchased == old(purchased)
      ensures cost.Some? ==>
                var to := if beneficiary.Some? then beneficiary.value else caller;
                && cost.value == attached && purchased == old(purchased) + records
                && credits == old(credits)[to := Balance(old(credits), to) + records]
    {
      if StorageCost(records) != Some(attached) { return None; }
      var to := OnBehalf(beneficiary, caller);
      if Balance(credits, to) + records > U128_MAX { return None; }
      BuyOk(Now(), to, records);
      credits, purchased := credits[to := Balance(credits, to) + records], purchased + records;
      return Some(attached);
    }

    // `inputs` are (recipient, amount) pairs.
    method SubmitList(caller: string, id: string, token: string, inputs: seq<(string, nat)>, onBehalfOf: Option<string>)
      returns (ok: bool)
      requires Valid()
      modifies this`lists, this`credits, this`submitted
      ensures Valid()
      ensures var submitter := if onBehalfOf.Some? then onBehalfOf.value else caller;
              && (ok <==> && inputs != [] && IsListId(id) && id !in old(lists)
                          && (onBehalfOf.Some? ==> caller == account)
                          && Balance(old(credits), submitter) >= |inputs|)
              && (ok ==> && credits == old(credits)[submitter := Balance(old(credits), submitter) - |inputs|]
                         && id in lists && lists == old(lists)[id := lists[id]]
                         && lists[id].submitter == submitter)
      ensures ok ==> && lists[id].token == token && lists[id].status == Submitted
                     && |lists[id].payments| == |inputs|
                     && (forall i :: 0 <= i < |inputs| ==>
                           lists[id].payments[i] == Payment(inputs[i].0, inputs[i].1, Pending))
                     && submitted == old(submitted)[id := inputs]
      ensures !ok ==> lists == old(lists) && credits == old(credits) && submitted == old(submitted)
    {
      if inputs == [] || !IsListId(id) || id in lists { return false; }
      if onBehalfOf.Some? && caller != account { return false; }
      var submitter := OnBehalf(onBehalfOf, caller);
      if Balance(credits, submitter) < |inputs| { return false; }
      RecordsAre(inputs);
      StoreList(id, PaymentList(token, submitter, Submitted, Records(inputs)), inputs);
      return true;
    }

    // Deduct the credits and insert the list.
    method StoreList(id: string, list: PaymentList, ghost inputs: seq<(string, nat)>)
      requires Valid() && id !in lists
      requires list.status == Submitted && StatusOk(list) && AsSubmitted(list.payments, inputs)
      requires Balance(credits, list.submitter) >= |list.payments|
      modifies this`lists, this`credits, this`submitted
      ensures Valid()
      ensures lists == old(lists)[id := list] && submitted == old(submitted)[id := inputs]
      ensures credits == old(credits)[list.submitter := Balance(old(credits), list.submitter) - |list.payments|]
    {
      SubmitOk(Now(), id, list, inputs);
      var left := Balance(credits, list.submitter) - |list.payments|;
      ghost var after := Now().(lists := lists[id := list], submitted := submitted[id := inputs],
                                credits := credits[list.submitter := left]);
      credits, lists, submitted := credits[list.submitter := left], lists[id := list], submitted[id := inputs];
      assert Now() == after;
    }

    // The checks shared by the three ways to approve; the amount comes in the currency `paying`.
    method Approve(id: string, amount: nat, ghost paying: string) returns (ok: bool)
      requires Valid()
      modifies this`lists, this`received, this`matched
      ensures Valid()
      ensures ok <==> id in old(lists) && CanApprove(old(lists)[id], amount)
      ensures received == if ok then Add(old(received), paying, amount) else old(received)
      ensures matched <==> old(matched) && (ok ==> paying == Currency(old(lists)[id].token))
      ensures lists == if ok then old(lists)[id := old(lists)[id].(status := Approved)] else old(lists)
    {
      if id !in lists || lists[id].status != Submitted { return false; }
      var total := CheckedTotal(lists[id].payments);
      if total != Some(amount) { return false; }
      ApproveOk(Now(), id, paying);
      matched, received := matched && paying == Currency(lists[id].token), Add(received, paying, amount);
      lists := lists[id := lists[id].(status := Approved)];
      return true;
    }

    method ApproveList(caller: string, attached: nat, id: string) returns (ok: bool)
      requires Valid()
      modifies this`lists, this`received, this`matched
      ensures Valid()
      ensures ok <==> id in old(lists) && old(lists)[id].submitter == caller && CanApprove(old(lists)[id], attached)
      ensures received == if ok then Add(old(received), "NEAR", attached) else old(received)
      ensures matched <==> old(matched) && (ok ==> "NEAR" == Currency(old(lists)[id].token))
      ensures lists == if ok then old(lists)[id := old(lists)[id].(status := Approved)] else old(lists)
    {
      if id !in lists || lists[id].submitter != caller { return false; }
      ok := Approve(id, attached, "NEAR");
    }

    // The token callback: on success nothing is refunded.
    method FtOnTransfer(sender: string, amount: nat, msg: string, ghost paying: string) returns (ok: bool)
      requires Valid()
      modifies this`lists, this`received, this`matched
      ensures Valid()
      ensures ok <==> && IsListId(msg) && msg in old(lists) && old(lists)[msg].submitter == sender
                      && CanApprove(old(lists)[msg], amount)
      ensures received == if ok then Add(old(received), paying, amount) else old(received)
      ensures matched <==> old(matched) && (ok ==> paying == Currency(old(lists)[msg].token))
      ensures lists == if ok then old(lists)[msg := old(lists)[msg].(status := Approved)] else old(lists)
    {
      if !IsListId(msg) || msg !in lists || lists[msg].submitter != sender { return false; }
      ok := Approve(msg, amount, paying);
    }

    // The multi-token callback: exactly one token, the list's own.
    method MtOnTransfer(tokens: seq<string>, amounts: seq<nat>, msg: string, ghost paying: string) returns (ok: bool)
      requires Valid()
      modifies this`lists, this`received, this`matched
      ensures Valid()
      ensures ok <==> && IsListId(msg) && msg in old(lists) && |tokens| == 1 && |amounts| == 1
                      && old(lists)[msg].token == tokens[0] && CanApprove(old(lists)[msg], amounts[0])
      ensures ok ==> received == Add(old(received), paying, amounts[0])
      ensures !ok ==> received == old(received)
      ensures matched <==> old(matched) && (ok ==> paying == Currency(old(lists)[msg].token))
      ensures lists == if ok then old(lists)[msg := old(lists)[msg].(status := Approved)] else old(lists)
    {
      if !IsListId(msg) || msg !in lists || |tokens| != 1 || |amounts| != 1 { return false; }
      if lists[msg].token != tokens[0] { return false; }
      ok := Approve(msg, amounts[0], paying);
    }

    method RejectList(caller: string, id: string) returns (ok: bool)
      requires Valid()
      modifies this`lists
      ensures Valid()
      ensures ok <==> id in old(lists) && old(lists)[id].submitter == caller && old(lists)[id].status == Submitted
      ensures lists == if ok then old(lists)[id := old(lists)[id].(status := Rejected)] else old(lists)
    {
      if id !in lists || lists[id].submitter != caller || lists[id].status != Submitted { return false; }
      RejectOk(Now(), id);
      lists := lists[id := lists[id].(status := Rejected)];
      return true;
    }

    // `budget` is the number of payments the gas pays for; `payable` tells whether the promise
    // for a recipient can be built.  None is a panic; otherwise the payments still pending.
    method PayoutBatch(id: string, budget: nat, height: nat, payable: string -> bool) returns (remaining: Option<nat>)
      requires Valid()
      modifies this`lists, this`transfers
      ensures Valid()
      ensures remaining.Some? <==>
                && id in old(lists) && old(lists)[id].status == Approved
                && (budget == 0 ==> PendingCount(old(lists)[id].payments) == 0)
                && Pay(old(lists)[id].payments, budget, height, payable).Some?
      ensures remaining.None? ==> lists == old(lists) && transfers == old(transfers)
      ensures remaining.Some? ==>
                var paid := Pay(old(lists)[id].payments, budget, height, payable).value;
                && lists == old(lists)[id := old(lists)[id].(payments := paid)]
                && remaining.value == PendingCount(paid)
    {
      if id !in lists || lists[id].status != Approved { return None; }
      var before := lists[id].payments;
      var paid, sent := PayLoop(id, before, budget, height, payable);
      if paid.None? { return None; }
      PayoutOk(Now(), id, paid.value, sent, budget, height, payable);
      var list := lists[id].(payments := paid.value);
      ghost var after := Now().(lists := lists[id := list], transfers := transfers + sent);
      lists, transfers := lists[id := list], transfers + sent;
      assert Now() == after;
      return Some(PendingCount(paid.value));
    }
  }

  // From submission to payout: once no payment of a list is pending, the transfers recorded for
  // it are exactly one per input, with its recipient and amount.
  lemma PaidAsSubmitted(c: Contract, id: string)
    requires c.Valid() && id in c.lists && PendingCount(c.lists[id].payments) == 0
    ensures id in c.submitted && (c.submitted[id] != [] ==> c.lists[id].status == Approved)
    ensures var inputs := c.submitted[id];
            forall t: Transfer :: t.list == id ==>
              c.transfers[t] == if t.index < |inputs| && inputs[t.index] == (t.recipient, t.amount) then 1 else 0
  {
    PaidBound(c.lists[id].payments);
    forall t: Transfer | t.list == id
      ensures Justified(c.lists, t) <==>
              t.index < |c.submitted[id]| && c.submitted[id][t.index] == (t.recipient, t.amount)
    {
    }
    if c.submitted[id] != [] {
      assert c.lists[id].payments[0].status.Paid?;
    }
  }

  // At any time a recorded transfer pays an input of an approved list, and no input is paid twice.
  lemma TransfersAsSubmitted(c: Contract, t: Transfer)
    requires c.Valid() && t in c.transfers
    ensures t.list in c.lists && t.list in c.submitted && c.lists[t.list].status == Approved
    ensures t.index < |c.submitted[t.list]| && c.submitted[t.list][t.index] == (t.recipient, t.amount)
    ensures c.transfers[t] == 1
  {
    assert Justified(c.lists, t);
    assert c.lists[t.list].payments[t.index].status.Paid?;
  }

  // The loop of `payout_batch` over the payments of list `id`, with the promises it sends.
  method PayLoop(id: string, list: seq<Payment>, budget: nat, height: nat, payable: string -> bool)
    returns (paid: Option<seq<Payment>>, sent: multiset<Transfer>)
    ensures paid == if budget == 0 && PendingCount(list) > 0 then None else Pay(list, budget, height, payable)
    ensures paid.Some? ==> |paid.value| == |list|
    ensures paid.Some? ==> SentExactly(id, list, paid.value, sent)
  {
    var payments, processed, i := list, 0, 0;
    sent := multiset{};
    PaidBound(list);
    ProgressStart(list, budget, height, payable);
    while i < |payments|
      invariant processed <= budget && Progress(list, payments, i, budget, budget - processed, height, payable)
      invariant processed == 0 ==> forall j :: 0 <= j < i ==> list[j].status.Paid?
      invariant SentExactly(id, list, payments, sent)
    {
      ProgressStep(list, payments, i, budget, budget - processed, height, payable);
      if payments[i].status.Pending? {
        if processed == budget {
          if processed == 0 { return None, sent; }
          break;
        }
        if !payable(payments[i].recipient) { return None, sent; }
        SendOne(id, list, payments, sent, i, height);
        sent := sent + multiset{Transfer(id, i, payments[i].recipient, payments[i].amount)};
        payments := payments[i := payments[i].(status := Paid(height))];
        processed := processed + 1;
      }
      i := i + 1;
    }
    if i == |list| {
      assert list[i..] == [] && payments[..i] + [] == payments;
    }
    return Some(payments), sent;
  }

  // The first `i` payments have been visited and `left` more may be paid.
  ghost predicate Progress(list: seq<Payment>, payments: seq<Payment>, i: nat, budget: nat, left: nat, height: nat,
                           payable: string -> bool)
  {
    && i <= |list| == |payments|
    && payments[i..] == list[i..]
    && Pay(list, budget, height, payable) == Prepend(payments[..i], Pay(list[i..], left, height, payable))
  }

  lemma ProgressStart(list: seq<Payment>, budget: nat, height: nat, payable: string -> bool)
    ensures Progress(list, list, 0, budget, budget, height, payable)
  {
    assert list[0..] == list;
    var r := Pay(list, budget, height, payable);
    if r.Some? { assert [] + r.value == r.value; }
  }

  lemma ProgressStep(list: seq<Payment>, payments: seq<Payment>, i: nat, budget: nat, left: nat, height: nat,
                     payable: string -> bool)
    requires Progress(list, payments, i, budget, left, height, payable) && i < |list|
    ensures payments[i] == list[i]
    ensures list[i].status.Paid? ==> Progress(list, payments, i + 1, budget, left, height, payable)
    ensures list[i].status.Pending? && left == 0 ==> Pay(list, budget, height, payable) == Some(payments)
    ensures list[i].status.Pending? && left > 0 && !payable(list[i].recipient) ==>
              Pay(list, budget, height, payable) == None
    ensures list[i].status.Pending? && left > 0 && payable(list[i].recipient) ==>
              Progress(list, payments[i := list[i].(status := Paid(height))], i + 1, budget, left - 1, height, payable)
  {
    assert payments[i] == payments[i..][0] == list[i];
    assert list[i..][1..] == list[i + 1..] && payments[i..][1..] == payments[i + 1..];
    if list[i].status.Paid? {
      PrependTwice(payments[..i], list[i], Pay(list[i + 1..], left, height, payable));
      assert payments[..i + 1] == payments[..i] + [list[i]];
    } else if left == 0 {
      assert payments == payments[..i] + list[i..];
    } else if payable(list[i].recipient) {
      var p := list[i].(status := Paid(height));
      PrependTwice(payments[..i], p, Pay(list[i + 1..], left - 1, height, payable));
      assert payments[i := p][..i + 1] == payments[..i] + [p];
    }
  }

  lemma PrependTwice(prefix: seq<Payment>, p: Payment, r: Option<seq<Payment>>)
    ensures Prepend(prefix, Prepend([p], r)) == Prepend(prefix + [p], r)
  {
    if r.Some? { assert prefix + ([p] + r.value) == prefix + [p] + r.value; }
  }

  function Prepend(prefix: seq<Payment>, rest: Option<seq<Payment>>): Option<seq<Payment>> {
    if rest.None? then None else Some(prefix + rest.value)
  }

  function Balance(credits: map<string, nat>, account: string): nat {
    if account in credits then credits[account] else 0
  }

  function Records(inputs: seq<(string, nat)>): seq<Payment> {
    seq(|inputs|, i requires 0 <= i < |inputs| => Payment(inputs[i].0, inputs[i].1, Pending))
  }

  predicate CanApprove(list: PaymentList, amount: nat) {
    list.status == Submitted && Total(list.payments) == amount && amount <= U128_MAX
  }
}
