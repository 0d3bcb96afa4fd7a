// The hashed text of a payment list, character by character.
module PaymentText {
  import opened Sorting
  import opened Json
  import opened JsonRoundTrip
  import opened PaymentList

  lemma {:induction false} PlainText(s: string)
    requires forall i :: 0 <= i < |s| ==> 'a' <= s[i] <= 'z' || s[i] == '_'
    ensures Quoted(s) == s + "\""
  {
    if s != "" {
      PlainText(s[1..]);
      assert s + "\"" == [s[0]] + (s[1..] + "\"");
    }
  }

  // A key as it stands in the text.
  function Key(key: string): string { "\"" + key + "\":" }

  lemma EntryText(key: string, v: Json)
    requires forall i :: 0 <= i < |key| ==> 'a' <= key[i] <= 'z' || key[i] == '_'
    ensures PrintEntry(Entry(key, v)) == Key(key) + Print(v)
  {
    PlainText(key);
    assert "\"" + Quoted(key) + ":" == "\"" + key + "\":";
  }

  lemma PaymentKeys(a: Json, r: Json)
    ensures PrintEntry(Entry("amount", a)) == Key("amount") + Print(a)
    ensures PrintEntry(Entry("recipient", r)) == Key("recipient") + Print(r)
  {
    EntryText("amount", a);
    EntryText("recipient", r);
  }

  lemma PaymentsKey(v: Json)
    ensures PrintEntry(Entry("payments", v)) == Key("payments") + Print(v)
  {
    EntryText("payments", v);
  }

  lemma SubmitterKey(v: Json)
    ensures PrintEntry(Entry("submitter", v)) == Key("submitter") + Print(v)
  {
    EntryText("submitter", v);
  }

  lemma TimestampKey(v: Json)
    ensures PrintEntry(Entry("timestamp", v)) == Key("timestamp") + Print(v)
  {
    EntryText("timestamp", v);
  }

  lemma TokenKey(v: Json)
    ensures PrintEntry(Entry("token_id", v)) == Key("token_id") + Print(v)
  {
    EntryText("token_id", v);
  }

  lemma TwoEntries(d: Entry, e: Entry)
    ensures PrintEntries([d, e]) == PrintEntry(d) + "," + (PrintEntry(e) + "}")
  {
    assert [d, e][1..] == [e];
  }

  lemma FourEntries(b: Entry, c: Entry, d: Entry, e: Entry)
    ensures PrintEntries([b, c, d, e]) ==
            PrintEntry(b) + "," + (PrintEntry(c) + "," + (PrintEntry(d) + "," + (PrintEntry(e) + "}")))
  {
    assert [b, c, d, e][1..] == [c, d, e] && [c, d, e][1..] == [d, e];
    TwoEntries(d, e);
  }

  function PaymentText(p: Payment): string {
    "{" + (Key("amount") + ("\"" + Quoted(p.amount)) + "," + (Key("recipient") + ("\"" + Quoted(p.recipient)) + "}"))
  }

  function PaymentsText(payments: seq<Payment>): string {
    if payments == [] then "]"
    else PaymentText(payments[0]) + (if |payments| == 1 then "]" else "," + PaymentsText(payments[1..]))
  }

  lemma PaymentIsText(p: Payment)
    ensures Print(PaymentJson(p)) == PaymentText(p)
  {
    PaymentKeys(Str(p.amount), Str(p.recipient));
    TwoEntries(Entry("amount", Str(p.amount)), Entry("recipient", Str(p.recipient)));
  }

  lemma {:induction false} PaymentsAreText(payments: seq<Payment>)
    ensures PrintItems(PaymentsJson(payments)) == PaymentsText(payments)
  {
    if payments != [] {
      PaymentIsText(payments[0]);
      PaymentsAreText(payments[1..]);
      var items := PaymentsJson(payments);
      assert items[0] == PaymentJson(payments[0]) && items[1..] == PaymentsJson(payments[1..]);
      Regroup(Print(items[0]), ",", PrintItems(items[1..]), "");
      if |payments| > 1 { assert PrintItems(items) == Print(items[0]) + "," + PrintItems(items[1..]); }
    }
  }

  lemma ObjectOfFour(b: Entry, c: Entry, d: Entry, e: Entry, t: string, u: string, v: string, w: string)
    requires PrintEntry(b) == t && PrintEntry(c) == u && PrintEntry(d) == v && PrintEntry(e) == w
    ensures Print(Obj([b, c, d, e])) == "{" + (t + "," + (u + "," + (v + "," + (w + "}"))))
  {
    FourEntries(b, c, d, e);
  }

  lemma ValuesText(r: Request, sorted: seq<Payment>)
    ensures Print(CanonicalJson(r, sorted)) ==
            "{" + (Key("payments") + Print(Arr(PaymentsJson(sorted)))
            + "," + (Key("submitter") + Print(Str(r.submitter))
            + "," + (Key("timestamp") + Print(Num(Decimal(r.timestamp))) + "," + (Key("token_id") + Print(Str(r.token))
            + "}"))))
  {
    var p, s, t, k := Arr(PaymentsJson(sorted)), Str(r.submitter), Num(Decimal(r.timestamp)), Str(r.token);
    PaymentsKey(p);
    SubmitterKey(s);
    TimestampKey(t);
    TokenKey(k);
    ObjectOfFour(Entry("payments", p), Entry("submitter", s), Entry("timestamp", t), Entry("token_id", k),
                 Key("payments") + Print(p), Key("submitter") + Print(s),
                 Key("timestamp") + Print(t), Key("token_id") + Print(k));
  }

  // No white space, the four keys in order, strings escaped and nothing else.
  lemma TextIs(r: Request, leq: Order)
    ensures var payments := "[" + PaymentsText(Sort(r.payments, ByRecipient(leq)));
            ListText(r, leq) ==
            "{" + (Key("payments") + payments + "," + (Key("submitter") + ("\"" + Quoted(r.submitter)) + ","
            + (Key("timestamp") + Decimal(r.timestamp) + "," + (Key("token_id") + ("\"" + Quoted(r.token)) + "}"))))
  {
    PaymentsAreText(Sort(r.payments, ByRecipient(leq)));
    ValuesText(r, Sort(r.payments, ByRecipient(leq)));
  }
}
