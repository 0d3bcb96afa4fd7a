// The text behind a bulk-payment list id, as the JavaScript client builds it
// (e2e-tests/bulk-payment/dao-bulk-payment-flow.js, nt-fe/lib/bulk-payment-api.ts) and as the
// API recomputes it (nt-be/src/handlers/bulkpayment/submit.rs), and the generated recipients.
module PaymentList {
  import opened Wrappers
  import opened Utf8
  import opened Sorting
  import opened Json
  import opened JsonRoundTrip
  import opened ByteOrder

  datatype Payment = Payment(recipient: string, amount: string)

  datatype Request = Request(submitter: string, token: string, payments: seq<Payment>, timestamp: nat)

  // `a <= b` in some string order
  type Order = (string, string) -> bool

  function ByRecipient(leq: Order): (Payment, Payment) -> bool {
    (a: Payment, b: Payment) => leq(a.recipient, b.recipient)
  }

  // ----- Decimal numbers -----

  function Decimal(n: nat): string {
    if n < 10 then ['0' + n as char] else Decimal(n / 10) + ['0' + (n % 10) as char]
  }

  function FromDecimal(s: string): int {
    if s == "" then 0 else FromDecimal(s[..|s| - 1]) * 10 + (s[|s| - 1] as int - '0' as int)
  }

  lemma {:induction false} DecimalRoundTrip(n: nat)
    ensures Decimal(n) != "" && FromDecimal(Decimal(n)) == n
    ensures forall i :: 0 <= i < |Decimal(n)| ==> IsDigit(Decimal(n)[i])
    ensures Decimal(n)[0] == '0' ==> n == 0
  {
    var s := Decimal(n);
    if n >= 10 {
      DecimalRoundTrip(n / 10);
      assert s[..|s| - 1] == Decimal(n / 10);
    } else {
      assert s[..|s| - 1] == "";
    }
  }

  lemma {:induction false} AllDigits(s: string)
    requires forall i :: 0 <= i < |s| ==> IsDigit(s[i])
    ensures Digits(s) == |s|
  {
    if s != "" { AllDigits(s[1..]); }
  }

  lemma DecimalIntLen(n: nat)
    ensures IntLen(Decimal(n)) == Some(|Decimal(n)|)
  {
    var s := Decimal(n);
    DecimalRoundTrip(n);
    AllDigits(s);
    assert IsDigit(s[0]) && s[0..] == s;
  }

  lemma DecimalIsLiteral(n: nat)
    ensures ScanNumber(Decimal(n)) == Some(|Decimal(n)|)
  {
    var s := Decimal(n);
    DecimalIntLen(n);
    assert s[|s|..] == "";
    ScanParts(s, |s|, 0);
  }

  // ----- The canonical text -----

  function PaymentJson(p: Payment): Json {
    Obj([Entry("amount", Str(p.amount)), Entry("recipient", Str(p.recipient))])
  }

  function PaymentsJson(payments: seq<Payment>): seq<Json> {
    seq(|payments|, i requires 0 <= i < |payments| => PaymentJson(payments[i]))
  }

  function CanonicalJson(r: Request, sorted: seq<Payment>): Json {
    Obj([Entry("payments", Arr(PaymentsJson(sorted))), Entry("submitter", Str(r.submitter)),
         Entry("timestamp", Num(Decimal(r.timestamp))), Entry("token_id", Str(r.token))])
  }

  // `leq` is `localeCompare` in the client and byte order in the API.
  function ListText(r: Request, leq: Order): string {
    Print(CanonicalJson(r, Sort(r.payments, ByRecipient(leq))))
  }

  // What is hashed.
  function ListBytes(r: Request, leq: Order): seq<byte> { Encode(ListText(r, leq)) }

  function Verbatim(): NumberFormat { (s: string) => Some(s) }

  lemma PaymentKeysSorted(p: Payment)
    ensures Canonical(PaymentJson(p), 2, Verbatim())
  {
    assert StrLess("amount", "recipient");
  }

  lemma Deeper(v: Json, d: nat, e: nat, fmt: NumberFormat)
    requires d <= e && Canonical(v, d, fmt)
    ensures Canonical(v, e, fmt)
    decreases v
  {
    match v {
      case Arr(items) =>
        forall i | 0 <= i < |items| ensures Canonical(items[i], e - 1, fmt) { Deeper(items[i], d - 1, e - 1, fmt); }
      case Obj(entries) =>
        forall i | 0 <= i < |entries| ensures Canonical(entries[i].value, e - 1, fmt) {
          Deeper(entries[i].value, d - 1, e - 1, fmt);
        }
      case _ =>
    }
  }

  lemma RequestKeysSorted()
    ensures StrLess("payments", "submitter") && StrLess("payments", "timestamp") && StrLess("payments", "token_id")
    ensures StrLess("submitter", "timestamp") && StrLess("submitter", "token_id") && StrLess("timestamp", "token_id")
  {
    assert StrLess("imestamp", "oken_id");
    assert "timestamp"[1..] == "imestamp" && "token_id"[1..] == "oken_id";
  }

  lemma PaymentsCanonical(sorted: seq<Payment>)
    ensures Canonical(Arr(PaymentsJson(sorted)), 3, Verbatim())
  {
    var items := PaymentsJson(sorted);
    forall i | 0 <= i < |items| ensures Canonical(items[i], 2, Verbatim()) { PaymentKeysSorted(sorted[i]); }
  }

  lemma CanonicalJsonIsCanonical(r: Request, sorted: seq<Payment>)
    ensures Canonical(CanonicalJson(r, sorted), MAX_DEPTH, Verbatim())
  {
    var entries := CanonicalJson(r, sorted).entries;
    PaymentsCanonical(sorted);
    DecimalIsLiteral(r.timestamp);
    RequestKeysSorted();
    assert SortedKeys(entries);
    forall i | 0 <= i < |entries| ensures Canonical(entries[i].value, 3, Verbatim()) {
      assert entries[1].value.Str? && entries[2].value == Num(Decimal(r.timestamp)) && entries[3].value.Str?;
    }
    Deeper(CanonicalJson(r, sorted), 4, MAX_DEPTH, Verbatim());
  }

  lemma PaymentsJsonInjective(a: seq<Payment>, b: seq<Payment>)
    requires PaymentsJson(a) == PaymentsJson(b)
    ensures a == b
  {
    assert |PaymentsJson(a)| == |a| && |PaymentsJson(b)| == |b|;
    forall i | 0 <= i < |a| ensures a[i] == b[i] {
      assert PaymentsJson(a)[i].entries[0].value == PaymentsJson(b)[i].entries[0].value;
      assert PaymentsJson(a)[i].entries[1].value == PaymentsJson(b)[i].entries[1].value;
    }
  }

  predicate SameFields(r: Request, s: Request) {
    r.submitter == s.submitter && r.token == s.token && r.timestamp == s.timestamp
  }

  // Equal bytes mean equal fields and equal sorted payments, whatever the two orders are.
  lemma BytesDetermine(r: Request, p: Order, s: Request, q: Order)
    ensures ListBytes(r, p) == ListBytes(s, q)
       <==> SameFields(r, s) && Sort(r.payments, ByRecipient(p)) == Sort(s.payments, ByRecipient(q))
  {
    var a, b := Sort(r.payments, ByRecipient(p)), Sort(s.payments, ByRecipient(q));
    if ListBytes(r, p) == ListBytes(s, q) {
      EncodeInjective(ListText(r, p), ListText(s, q));
      CanonicalJsonIsCanonical(r, a);
      CanonicalJsonIsCanonical(s, b);
      PrintInjective(CanonicalJson(r, a), CanonicalJson(s, b), Verbatim());
      var x, y := CanonicalJson(r, a).entries, CanonicalJson(s, b).entries;
      assert x[0] == y[0] && x[1] == y[1] && x[2] == y[2] && x[3] == y[3];
      PaymentsJsonInjective(a, b);
      DecimalRoundTrip(r.timestamp);
      DecimalRoundTrip(s.timestamp);
    }
  }

  // The hashed text is a JSON object that names each field for what it is, with the payments in
  // the order of their recipients.
  lemma TextReads(r: Request, leq: Order) returns (sorted: seq<Payment>, items: seq<Json>, stamp: string)
    requires TotalPreorder(leq)
    ensures Decode(ListBytes(r, leq)) == Some(ListText(r, leq))
    ensures multiset(sorted) == multiset(r.payments)
    ensures forall i, j :: 0 <= i < j < |sorted| ==> leq(sorted[i].recipient, sorted[j].recipient)
    ensures FromDecimal(stamp) == r.timestamp && forall c :: c in stamp ==> c in "0123456789"
    ensures |items| == |sorted|
    ensures forall i :: 0 <= i < |sorted| ==>
              items[i] == Obj([Entry("amount", Str(sorted[i].amount)), Entry("recipient", Str(sorted[i].recipient))])
    ensures Parse(ListText(r, leq), Verbatim()) ==
            Some(Obj([
              Entry("payments", Arr(items)),
              Entry("submitter", Str(r.submitter)),
              Entry("timestamp", Num(stamp)),
              Entry("token_id", Str(r.token))]))
  {
    sorted, stamp := Sort(r.payments, ByRecipient(leq)), Decimal(r.timestamp);
    items := PaymentsJson(sorted);
    DecodeEncode(ListText(r, leq));
    ByRecipientPreorder(leq);
    SortIsStable(r.payments, ByRecipient(leq));
    forall i, j | 0 <= i < j < |sorted| ensures leq(sorted[i].recipient, sorted[j].recipient) {
      assert ByRecipient(leq)(sorted[i], sorted[j]);
    }
    DecimalDigits(r.timestamp);
    CanonicalJsonIsCanonical(r, sorted);
    ParsePrint(CanonicalJson(r, sorted), Verbatim());
  }

  lemma DecimalDigits(n: nat)
    ensures FromDecimal(Decimal(n)) == n && forall c :: c in Decimal(n) ==> c in "0123456789"
  {
    DecimalRoundTrip(n);
    forall c | c in Decimal(n) ensures c in "0123456789" {
      assert "0123456789"[c as int - '0' as int] == c;
    }
  }

  lemma ByRecipientPreorder(leq: Order)
    requires TotalPreorder(leq)
    ensures TotalPreorder(ByRecipient(leq))
  {
    var cmp := ByRecipient(leq);
    forall x, y ensures cmp(x, y) || cmp(y, x) {
      assert leq(x.recipient, y.recipient) || leq(y.recipient, x.recipient);
    }
    forall x, y, z | cmp(x, y) && cmp(y, z) ensures cmp(x, z) {
      assert leq(x.recipient, y.recipient) && leq(y.recipient, z.recipient);
    }
  }

  // Two requests hash alike exactly when their fields agree and their payments are
  // permutations that keep the order of payments whose recipients tie.
  lemma SameBytesIff(r: Request, s: Request, leq: Order)
    requires TotalPreorder(leq)
    ensures ListBytes(r, leq) == ListBytes(s, leq)
       <==> SameFields(r, s) && multiset(r.payments) == multiset(s.payments)
            && SameTies(r.payments, s.payments, ByRecipient(leq))
  {
    ByRecipientPreorder(leq);
    BytesDetermine(r, leq, s, leq);
    SortsEqualIff(r.payments, s.payments, ByRecipient(leq));
  }

  ghost predicate DistinctRecipients(payments: seq<Payment>) {
    forall i, j :: 0 <= i < j < |payments| ==> payments[i].recipient != payments[j].recipient
  }

  // No two recipients of the list compare equal; `localeCompare` answers 0 for some distinct strings.
  ghost predicate Untied(payments: seq<Payment>, leq: Order) {
    forall i, j :: 0 <= i < j < |payments| ==> !Tied(payments[i], payments[j], ByRecipient(leq))
  }

  lemma UntiedIff(payments: seq<Payment>, leq: Order)
    requires TotalPreorder(leq) && DistinctRecipients(payments)
    ensures Untied(payments, leq) <==> NoTies(payments, ByRecipient(leq))
    ensures TotalOrder(leq) ==> Untied(payments, leq)
  {
    var cmp := ByRecipient(leq);
    if NoTies(payments, cmp) {
      forall i, j | 0 <= i < j < |payments| ensures !Tied(payments[i], payments[j], cmp) {
        assert payments[i] != payments[j];
      }
    }
  }

  ghost predicate SameList(r: Request, s: Request) {
    SameFields(r, s) && multiset(s.payments) == multiset(r.payments)
  }

  lemma SameBytesSameList(r: Request, s: Request, leq: Order)
    requires TotalPreorder(leq) && NoTies(r.payments, ByRecipient(leq))
    ensures ListBytes(s, leq) == ListBytes(r, leq) <==> SameList(r, s)
  {
    ByRecipientPreorder(leq);
    BytesDetermine(s, leq, r, leq);
    PermutationsIff(r.payments, ByRecipient(leq));
    SortsEqualIff(s.payments, r.payments, ByRecipient(leq));
  }

  lemma TiedPermutation(r: Request, leq: Order) returns (s: Request)
    requires TotalPreorder(leq) && !NoTies(r.payments, ByRecipient(leq))
    ensures SameList(r, s) && ListBytes(s, leq) != ListBytes(r, leq)
  {
    var cmp := ByRecipient(leq);
    ByRecipientPreorder(leq);
    PermutationsIff(r.payments, cmp);
    var t :| multiset(t) == multiset(r.payments) && Sort(t, cmp) != Sort(r.payments, cmp);
    s := r.(payments := t);
    BytesDetermine(s, leq, r, leq);
  }

  // The hashed bytes say exactly which fields and which payments, in no order, for all requests
  // precisely when no two different payments tie.
  lemma PermutationsHashAlikeIff(r: Request, leq: Order)
    requires TotalPreorder(leq)
    ensures NoTies(r.payments, ByRecipient(leq)) <==>
            forall s :: ListBytes(s, leq) == ListBytes(r, leq) <==> SameList(r, s)
    ensures DistinctRecipients(r.payments) ==> (NoTies(r.payments, ByRecipient(leq)) <==> Untied(r.payments, leq))
  {
    if DistinctRecipients(r.payments) { UntiedIff(r.payments, leq); }
    if NoTies(r.payments, ByRecipient(leq)) {
      forall s ensures ListBytes(s, leq) == ListBytes(r, leq) <==> SameList(r, s) {
        SameBytesSameList(r, s, leq);
      }
    } else {
      var s := TiedPermutation(r, leq);
      assert !(ListBytes(s, leq) == ListBytes(r, leq) <==> SameList(r, s));
    }
  }

  // ... which it always is under a total order.
  lemma SameBytesDistinct(r: Request, s: Request, leq: Order)
    requires TotalOrder(leq) && DistinctRecipients(r.payments)
    ensures ListBytes(s, leq) == ListBytes(r, leq) <==> SameList(r, s)
  {
    UntiedIff(r.payments, leq);
    PermutationsHashAlikeIff(r, leq);
  }

  // ----- Client and API -----

  // The API accepts the client's list id (hash collisions aside) exactly when the two orders
  // agree on every pair of recipients as it stands in the request.
  lemma ClientMatchesApi(r: Request, client: Order)
    requires TotalPreorder(client)
    ensures ListBytes(r, client) == ListBytes(r, StrLeq) <==>
            AgreeInPlace(r.payments, ByRecipient(client), ByRecipient(StrLeq))
  {
    StrLeqIsTotalOrder();
    ByRecipientPreorder(client);
    ByRecipientPreorder(StrLeq);
    BytesDetermine(r, client, r, StrLeq);
    TwoOrdersIff(r.payments, ByRecipient(client), ByRecipient(StrLeq));
  }

  // Two recipients that tie for the client and not for the API: one of the two orders of the
  // payments fails.
  lemma TieMismatch(x: string, y: string, client: Order)
    requires TotalPreorder(client) && StrLess(x, y) && client(x, y) && client(y, x)
    ensures var r := Request("dao", "native", [Payment(y, "1"), Payment(x, "2")], 0);
            ListBytes(r, client) != ListBytes(r, StrLeq)
  {
    var r := Request("dao", "native", [Payment(y, "1"), Payment(x, "2")], 0);
    StrLessAsymmetric(x, y);
    assert x != y by { StrLessIrreflexive(x); }
    assert !StrLeq(y, x);
    assert ByRecipient(client)(r.payments[0], r.payments[1]) && !ByRecipient(StrLeq)(r.payments[0], r.payments[1]);
    ClientMatchesApi(r, client);
  }

  // A list on which they do not: root collation puts `_` before digits, bytes put it after.
  lemma UnderscoreMismatch(client: Order)
    requires TotalPreorder(client) && client("a_b", "a1b")
    ensures var r := Request("dao", "native", [Payment("a_b", "1"), Payment("a1b", "2")], 0);
            ListBytes(r, client) != ListBytes(r, StrLeq)
  {
    var r := Request("dao", "native", [Payment("a_b", "1"), Payment("a1b", "2")], 0);
    assert "a_b"[1..][0] == '_' && "a1b"[1..][0] == '1';
    assert !StrLeq("a_b", "a1b");
    assert ByRecipient(client)(r.payments[0], r.payments[1]) && !ByRecipient(StrLeq)(r.payments[0], r.payments[1]);
    ClientMatchesApi(r, client);
  }

  // ----- Generated recipients -----

  function Hex(n: nat): string {
    if n < 16 then [HexDigit(n)] else Hex(n / 16) + [HexDigit(n % 16)]
  }

  function PadStart(s: string, n: nat): string {
    seq(if |s| < n then n - |s| else 0, i => '0') + s
  }

  function Repeat(s: string, k: nat): (r: string)
    ensures |r| == k * |s|
  {
    if k == 0 then "" else s + Repeat(s, k - 1)
  }

  function GenerateImplicitAccountId(index: nat): string {
    Repeat(PadStart(Hex(index % 0x1_0000_0000), 8), 8)
  }

  function FromHex(s: string): nat {
    if s == "" then 0
    else
      var last := HexValue(s[|s| - 1]);
      FromHex(s[..|s| - 1]) * 16 + if last.Some? then last.value else 0
  }

  predicate LowerHex(s: string) { forall i :: 0 <= i < |s| ==> '0' <= s[i] <= '9' || 'a' <= s[i] <= 'f' }

  function Pow16(k: nat): nat { if k == 0 then 1 else 16 * Pow16(k - 1) }

  lemma {:induction false} HexRead(n: nat, k: nat)
    requires k >= 1 && n < Pow16(k)
    ensures FromHex(Hex(n)) == n && 1 <= |Hex(n)| <= k && LowerHex(Hex(n))
  {
    var s := Hex(n);
    HexRoundTrip(n % 16);
    if n >= 16 {
      HexRead(n / 16, k - 1);
      assert s[..|s| - 1] == Hex(n / 16);
    } else {
      HexRoundTrip(n);
      assert s[..|s| - 1] == "";
    }
  }

  lemma {:induction false} LeadingZeros(s: string)
    ensures FromHex("0" + s) == FromHex(s)
  {
    var t := "0" + s;
    if s == "" {
      assert t[..|t| - 1] == "";
    } else {
      assert t[..|t| - 1] == "0" + s[..|s| - 1];
      LeadingZeros(s[..|s| - 1]);
    }
  }

  lemma {:induction false} PaddedRead(s: string, zeros: nat)
    ensures FromHex(seq(zeros, i => '0') + s) == FromHex(s)
    decreases zeros
  {
    var t := seq(zeros, i => '0') + s;
    if zeros == 0 {
      assert t == s;
    } else {
      assert t == "0" + (seq(zeros - 1, i => '0') + s);
      LeadingZeros(seq(zeros - 1, i => '0') + s);
      PaddedRead(s, zeros - 1);
    }
  }

  lemma Pow16Eight()
    ensures Pow16(8) == 0x1_0000_0000
  {
    assert Pow16(2) == 256;
    assert Pow16(4) == 16 * 16 * Pow16(2);
    assert Pow16(6) == 16 * 16 * Pow16(4);
    assert Pow16(8) == 16 * 16 * Pow16(6);
  }

  lemma PaddedShape(h: string)
    requires |h| <= 8 && LowerHex(h)
    ensures |PadStart(h, 8)| == 8 && LowerHex(PadStart(h, 8))
  {
  }

  // Eight hex digits that still spell the index.
  lemma BlockOfEight(index: nat)
    ensures var block := PadStart(Hex(index % 0x1_0000_0000), 8);
            |block| == 8 && LowerHex(block) && FromHex(block) == index % 0x1_0000_0000
  {
    var n: nat := index % 0x1_0000_0000;
    Pow16Eight();
    HexRead(n, 8);
    PaddedRead(Hex(n), 8 - |Hex(n)|);
    PaddedShape(Hex(n));
  }

  lemma {:induction false} RepeatLowerHex(s: string, k: nat)
    requires LowerHex(s)
    ensures LowerHex(Repeat(s, k))
  {
    if k > 0 { RepeatLowerHex(s, k - 1); }
  }

  lemma ImplicitIdShape(index: nat)
    ensures |GenerateImplicitAccountId(index)| == 64 && LowerHex(GenerateImplicitAccountId(index))
  {
    BlockOfEight(index);
    RepeatLowerHex(PadStart(Hex(index % 0x1_0000_0000), 8), 8);
  }

  // Each of its eight blocks of eight digits spells the index.
  lemma ImplicitIdReads(index: nat, k: nat)
    requires k < 8
    ensures |GenerateImplicitAccountId(index)| == 64
    ensures FromHex(GenerateImplicitAccountId(index)[8 * k..8 * k + 8]) == index % 0x1_0000_0000
  {
    var block := PadStart(Hex(index % 0x1_0000_0000), 8);
    BlockOfEight(index);
    RepeatAt(block, 8, k);
  }

  lemma {:induction false} RepeatAt(s: string, n: nat, k: nat)
    requires k < n && |s| == 8
    ensures |Repeat(s, n)| == 8 * n && Repeat(s, n)[8 * k..8 * k + 8] == s
  {
    if k > 0 {
      RepeatAt(s, n - 1, k - 1);
      assert Repeat(s, n)[8 * k..8 * k + 8] == Repeat(s, n - 1)[8 * k - 8..8 * k];
    }
  }

  lemma ImplicitIdsEqualIff(i: nat, j: nat)
    ensures GenerateImplicitAccountId(i) == GenerateImplicitAccountId(j) <==> i % 0x1_0000_0000 == j % 0x1_0000_0000
  {
    BlockOfEight(i);
    BlockOfEight(j);
    if GenerateImplicitAccountId(i) == GenerateImplicitAccountId(j) {
      var a, b := PadStart(Hex(i % 0x1_0000_0000), 8), PadStart(Hex(j % 0x1_0000_0000), 8);
      assert GenerateImplicitAccountId(i)[..8] == a;
      assert GenerateImplicitAccountId(j)[..8] == b;
    }
  }

  lemma ApartModulo(i: nat, j: nat)
    requires i < j < i + 0x1_0000_0000
    ensures i % 0x1_0000_0000 != j % 0x1_0000_0000
  {
  }

  // Any 2^32 consecutive indices give payments with distinct recipients.
  lemma ImplicitRecipientsDistinct(start: nat, payments: seq<Payment>)
    requires |payments| <= 0x1_0000_0000
    requires forall i :: 0 <= i < |payments| ==> payments[i].recipient == GenerateImplicitAccountId(start + i)
    ensures DistinctRecipients(payments)
  {
    forall i, j | 0 <= i < j < |payments| ensures payments[i].recipient != payments[j].recipient {
      ApartModulo(start + i, start + j);
      ImplicitIdsEqualIff(start + i, start + j);
    }
  }
}
