// The bytes that get hashed and signed: NEP-413 preimages and packed intent nonces
// (nt-be/examples/confidential_transfer.rs, e2e-tests/bulk-payment/dao-bulk-payment-flow.js).
module SignedPayload {
  import opened Wrappers
  import opened Utf8

  // ----- Little-endian numbers -----

  function Pow256(k: nat): nat { if k == 0 then 1 else 256 * Pow256(k - 1) }

  function Le(n: nat, k: nat): (b: seq<byte>)
    ensures |b| == k
  {
    if k == 0 then [] else [n % 256] + Le(n / 256, k - 1)
  }

  function FromLe(b: seq<byte>): nat {
    if b == [] then 0 else b[0] as nat + 256 * FromLe(b[1..])
  }

  lemma {:induction false} FromLeLe(n: nat, k: nat)
    requires n < Pow256(k)
    ensures FromLe(Le(n, k)) == n
  {
    if k > 0 {
      FromLeLe(n / 256, k - 1);
      assert Le(n, k)[1..] == Le(n / 256, k - 1);
    }
  }

  lemma LowByte(low: byte, high: nat)
    ensures (low as nat + 256 * high) % 256 == low as nat && (low as nat + 256 * high) / 256 == high
  {
  }

  lemma {:induction false} LeFromLe(b: seq<byte>)
    ensures FromLe(b) < Pow256(|b|) && Le(FromLe(b), |b|) == b
  {
    if b != [] {
      LeFromLe(b[1..]);
      LowByte(b[0], FromLe(b[1..]));
      assert b == [b[0]] + b[1..];
    }
  }

  lemma Pow256Values()
    ensures Pow256(4) == 0x1_0000_0000 && Pow256(8) == 0x1_0000_0000_0000_0000
  {
    assert Pow256(2) == 0x1_0000;
    assert Pow256(4) == 256 * 256 * Pow256(2);
    assert Pow256(6) == 256 * 256 * Pow256(4);
    assert Pow256(8) == 256 * 256 * Pow256(6);
  }

  // ----- Borsh strings -----

  // Borsh refuses a string of 2^32 bytes or more.
  function BorshString(s: string): Option<seq<byte>> {
    if |Encode(s)| < Pow256(4) then Some(Le(|Encode(s)|, 4) + Encode(s)) else None
  }

  // The value at the front of a byte string and what follows it.
  datatype Read<+T> = Bad | Good(value: T, rest: seq<byte>)

  function ReadString(b: seq<byte>): Read<string> {
    if |b| < 4 then Bad
    else
      var n := FromLe(b[..4]);
      if |b| < 4 + n then Bad
      else match Decode(b[4..4 + n])
        case None => Bad
        case Some(s) => Good(s, b[4 + n..])
  }

  lemma ReadStringBorsh(s: string, rest: seq<byte>)
    requires BorshString(s).Some?
    ensures ReadString(BorshString(s).value + rest) == Good(s, rest)
  {
    var e := Encode(s);
    var b := BorshString(s).value + rest;
    assert b[..4] == Le(|e|, 4);
    FromLeLe(|e|, 4);
    assert b[4..4 + |e|] == e && b[4 + |e|..] == rest;
    DecodeEncode(s);
  }

  lemma ThreeParts(b: seq<byte>, n: nat)
    requires 4 + n <= |b|
    ensures b[..4] + b[4..4 + n] + b[4 + n..] == b
  {
  }

  lemma BorshReadString(b: seq<byte>)
    requires ReadString(b).Good?
    ensures BorshString(ReadString(b).value).Some?
    ensures BorshString(ReadString(b).value).value + ReadString(b).rest == b
  {
    var head, n := b[..4], FromLe(b[..4]);
    LeFromLe(head);
    assert n < Pow256(4) && Le(n, 4) == head;
    EncodeDecode(b[4..4 + n]);
    ThreeParts(b, n);
  }

  // ----- NEP-413 -----

  type Bytes32 = b: seq<byte> | |b| == 32 witness seq(32, i => 0)

  datatype Payload = Payload(message: string, nonce: Bytes32, recipient: string, callbackUrl: Option<string>)

  // 2^31 + 413
  const NEP413_TAG: nat := 2147484061

  function BorshOption(s: Option<string>): Option<seq<byte>> {
    match s
    case None => Some([0])
    case Some(t) => match BorshString(t) case None => None case Some(b) => Some([1] + b)
  }

  // Everything after the message.
  function Tail(p: Payload): Option<seq<byte>> {
    var r, c := BorshString(p.recipient), BorshOption(p.callbackUrl);
    if r.None? || c.None? then None else Some(p.nonce + r.value + c.value)
  }

  // What is hashed; None when Borsh refuses a string.
  function Preimage(p: Payload): Option<seq<byte>> {
    var m, t := BorshString(p.message), Tail(p);
    if m.None? || t.None? then None else Some(Le(NEP413_TAG, 4) + (m.value + t.value))
  }

  function ReadOption(b: seq<byte>): Read<Option<string>> {
    if b == [] || b[0] > 1 then Bad
    else if b[0] == 0 then Good(None, b[1..])
    else match ReadString(b[1..])
      case Bad => Bad
      case Good(s, rest) => Good(Some(s), rest)
  }

  function ReadTail(message: string, b: seq<byte>): Option<Payload> {
    if |b| < 32 then None
    else match ReadString(b[32..])
      case Bad => None
      case Good(recipient, rest) =>
        match ReadOption(rest)
        case Bad => None
        case Good(callbackUrl, end) =>
          if end == [] then Some(Payload(message, b[..32], recipient, callbackUrl)) else None
  }

  function ReadBody(b: seq<byte>): Option<Payload> {
    match ReadString(b)
    case Bad => None
    case Good(message, rest) => ReadTail(message, rest)
  }

  function ReadPreimage(b: seq<byte>): Option<Payload> {
    if |b| < 4 || b[..4] != Le(NEP413_TAG, 4) then None else ReadBody(b[4..])
  }

  lemma ReadOptionBorsh(s: Option<string>)
    requires BorshOption(s).Some?
    ensures ReadOption(BorshOption(s).value) == Good(s, [])
  {
    if s.Some? {
      var b := BorshString(s.value).value;
      assert ([1] + b)[1..] == b + [];
      ReadStringBorsh(s.value, []);
    }
  }

  lemma BorshReadOption(b: seq<byte>)
    requires ReadOption(b).Good? && ReadOption(b).rest == []
    ensures BorshOption(ReadOption(b).value) == Some(b)
  {
    if b[0] == 1 {
      BorshReadString(b[1..]);
      var t := BorshString(ReadString(b[1..]).value).value;
      assert t + [] == t;
      assert b == [1] + b[1..];
    } else {
      assert b == [0];
    }
  }

  lemma ReadTailOf(p: Payload)
    requires Tail(p).Some?
    ensures ReadTail(p.message, Tail(p).value) == Some(p)
  {
    var r, c := BorshString(p.recipient).value, BorshOption(p.callbackUrl).value;
    var t := Tail(p).value;
    assert t[32..] == r + c && t[..32] == p.nonce;
    ReadStringBorsh(p.recipient, c);
    ReadOptionBorsh(p.callbackUrl);
  }

  lemma TailOfRead(message: string, b: seq<byte>)
    requires ReadTail(message, b).Some?
    ensures Tail(ReadTail(message, b).value) == Some(b)
  {
    BorshReadString(b[32..]);
    var c := ReadString(b[32..]).rest;
    BorshReadOption(c);
    var p := ReadTail(message, b).value;
    var r := BorshString(p.recipient).value;
    assert b == b[..32] + b[32..] == p.nonce + (r + c) == p.nonce + r + c;
  }

  // Decoding undoes encoding ...
  lemma ReadPreimageOf(p: Payload)
    requires Preimage(p).Some?
    ensures ReadPreimage(Preimage(p).value) == Some(p)
  {
    var t := Tail(p).value;
    var body := BorshString(p.message).value + t;
    TagThen(Le(NEP413_TAG, 4), body);
    ReadStringBorsh(p.message, t);
    ReadTailOf(p);
  }

  lemma TagThen(tag: seq<byte>, body: seq<byte>)
    requires |tag| == 4
    ensures (tag + body)[..4] == tag && (tag + body)[4..] == body
  {
  }

  // ... and no other bytes decode to the payload: the encoding is canonical.
  lemma PreimageOfRead(b: seq<byte>)
    requires ReadPreimage(b).Some?
    ensures Preimage(ReadPreimage(b).value) == Some(b)
  {
    BodyOfRead(b[4..]);
    assert b == b[..4] + b[4..];
  }

  lemma BodyOfRead(b: seq<byte>)
    requires ReadBody(b).Some?
    ensures BorshString(ReadBody(b).value.message).Some? && Tail(ReadBody(b).value).Some?
    ensures BorshString(ReadBody(b).value.message).value + Tail(ReadBody(b).value).value == b
  {
    BorshReadString(b);
    TailOfRead(ReadString(b).value, ReadString(b).rest);
  }

  // The tag in the order it is hashed.
  lemma TagBytes()
    ensures NEP413_TAG == 0x8000_0000 + 413 && Le(NEP413_TAG, 4) == [0x9D, 0x01, 0x00, 0x80]
  {
    var n := NEP413_TAG;
    assert Le(n / 256 / 256 / 256 / 256, 0) == [];
    assert n % 256 == 0x9D && n / 256 % 256 == 1 && n / 256 / 256 % 256 == 0 && n / 256 / 256 / 256 == 0x80;
  }

  lemma LayoutAt(b: seq<byte>, tag: seq<byte>, ln: seq<byte>, text: seq<byte>, nonce: seq<byte>, lm: seq<byte>,
                 to: seq<byte>, c: seq<byte>)
    requires |tag| == |ln| == |lm| == 4 && |nonce| == 32
    requires b == tag + ((ln + text) + (nonce + (lm + to) + c))
    ensures var n, m := |text|, |to|;
            && |b| == 44 + n + m + |c|
            && b[..4] == tag && b[4..8] == ln && b[8..8 + n] == text && b[8 + n..40 + n] == nonce
            && b[40 + n..44 + n] == lm && b[44 + n..44 + n + m] == to && b[44 + n + m..] == c
  {
  }

  lemma PreimageParts(p: Payload)
    requires Preimage(p).Some?
    ensures BorshOption(p.callbackUrl).Some?
    ensures |Encode(p.message)| < Pow256(4) && |Encode(p.recipient)| < Pow256(4)
    ensures Preimage(p).value ==
            Le(NEP413_TAG, 4) + ((Le(|Encode(p.message)|, 4) + Encode(p.message))
              + (p.nonce + (Le(|Encode(p.recipient)|, 4) + Encode(p.recipient)) + BorshOption(p.callbackUrl).value))
  {
  }

  lemma PreimageBytes(p: Payload)
    requires Preimage(p).Some?
    ensures |Encode(p.message)| < Pow256(4) && |Encode(p.recipient)| < Pow256(4)
    ensures var b, n, m := Preimage(p).value, |Encode(p.message)|, |Encode(p.recipient)|;
            && |b| >= 44 + n + m
            && b[..4] == Le(NEP413_TAG, 4) && b[4..8] == Le(n, 4) && b[8..8 + n] == Encode(p.message)
            && b[8 + n..40 + n] == p.nonce && b[40 + n..44 + n] == Le(m, 4)
            && b[44 + n..44 + n + m] == Encode(p.recipient)
            && Some(b[44 + n + m..]) == BorshOption(p.callbackUrl)
  {
    var e, f := Encode(p.message), Encode(p.recipient);
    PreimageParts(p);
    LayoutAt(Preimage(p).value, Le(NEP413_TAG, 4), Le(|e|, 4), e, p.nonce, Le(|f|, 4), f,
             BorshOption(p.callbackUrl).value);
  }

  // Tag, length and bytes of the message, 32 bytes of nonce, length and bytes of the recipient, and
  // then the callback: nothing else, in this order.
  lemma PreimageLayout(p: Payload)
    requires Preimage(p).Some?
    ensures var b, n, m := Preimage(p).value, |Encode(p.message)|, |Encode(p.recipient)|;
            && |b| >= 44 + n + m
            && b[..4] == Le(NEP413_TAG, 4)
            && FromLe(b[4..8]) == n && b[8..8 + n] == Encode(p.message)
            && b[8 + n..40 + n] == p.nonce
            && FromLe(b[40 + n..44 + n]) == m && b[44 + n..44 + n + m] == Encode(p.recipient)
            && Some(b[44 + n + m..]) == BorshOption(p.callbackUrl)
  {
    PreimageBytes(p);
    FromLeLe(|Encode(p.message)|, 4);
    FromLeLe(|Encode(p.recipient)|, 4);
  }

  // The callback: a byte 0, or a byte 1 with length and bytes.
  lemma CallbackLayout(s: Option<string>)
    requires BorshOption(s).Some?
    ensures var b := BorshOption(s).value;
            if s.None? then b == [0]
            else |b| >= 5 && b[0] == 1 && FromLe(b[1..5]) == |Encode(s.value)| && b[5..] == Encode(s.value)
  {
    if s.Some? {
      var b, e := BorshOption(s).value, Encode(s.value);
      assert b == [1] + (Le(|e|, 4) + e);
      assert b[1..5] == Le(|e|, 4) && b[5..] == e;
      FromLeLe(|e|, 4);
    }
  }

  lemma PreimageInjective(p: Payload, q: Payload)
    requires Preimage(p).Some? && Preimage(p) == Preimage(q)
    ensures p == q
  {
    ReadPreimageOf(p);
    ReadPreimageOf(q);
  }

  // The Rust signer appends to one growing vector.
  method SignPreimage(message: string, nonce: Bytes32, recipient: string) returns (r: Option<seq<byte>>)
    ensures r == Preimage(Payload(message, nonce, recipient, None))
  {
    var bytes := Le(NEP413_TAG, 4);
    var part := BorshString(message);
    if part.None? { return None; }
    bytes := bytes + part.value;
    bytes := bytes + nonce;
    part := BorshString(recipient);
    if part.None? { return None; }
    bytes := bytes + part.value;
    bytes := bytes + [0];
    assert bytes == Le(NEP413_TAG, 4) + (BorshString(message).value + (nonce + BorshString(recipient).value + [0]));
    return Some(bytes);
  }

  // The JavaScript signer writes the tag into a fresh buffer and concatenates; both
  // signers hash the same bytes.
  method SignNep413Preimage(message: string, nonce: Bytes32, recipient: string) returns (r: Option<seq<byte>>)
    ensures r == Preimage(Payload(message, nonce, recipient, None))
  {
    var m, t := BorshString(message), BorshString(recipient);
    if m.None? || t.None? { return None; }
    var serialized := m.value + nonce + t.value + [0];
    var tagBuffer := new byte[4];
    for i := 0 to 4
      invariant forall j :: 0 <= j < i ==> tagBuffer[j] == Le(NEP413_TAG, 4)[j]
    {
      tagBuffer[i] := Le(NEP413_TAG, 4)[i];
    }
    assert tagBuffer[..] == Le(NEP413_TAG, 4);
    r := Some(tagBuffer[..] + serialized);
    assert r.value == Le(NEP413_TAG, 4) + (m.value + (nonce + t.value + [0]));
  }

  // ----- Intent nonces -----

  const MAGIC: seq<byte> := [0x56, 0x28, 0xF6, 0xC6]

  datatype NonceFields = NonceFields(salt: seq<byte>, deadline: nat, now: nat, tail: seq<byte>)

  predicate FieldsValid(f: NonceFields) {
    |f.salt| == 4 && |f.tail| == 7 && f.deadline < Pow256(8) && f.now < Pow256(8)
  }

  function Pack(f: NonceFields): seq<byte> {
    MAGIC + [0] + f.salt + Le(f.deadline, 8) + Le(f.now, 8) + f.tail
  }

  function Unpack(b: seq<byte>): Option<NonceFields> {
    if |b| != 32 || b[..4] != MAGIC || b[4] != 0 then None
    else Some(NonceFields(b[5..9], FromLe(b[9..17]), FromLe(b[17..25]), b[25..]))
  }

  lemma UnpackPack(f: NonceFields)
    requires FieldsValid(f)
    ensures |Pack(f)| == 32 && Unpack(Pack(f)) == Some(f)
    ensures Pack(f)[..5] == [0x56, 0x28, 0xF6, 0xC6, 0]
    ensures Pack(f)[5..9] == f.salt && Pack(f)[25..32] == f.tail
    ensures FromLe(Pack(f)[9..17]) == f.deadline && FromLe(Pack(f)[17..25]) == f.now
  {
    var b := Pack(f);
    assert b[..4] == MAGIC && b[5..9] == f.salt && b[25..] == f.tail;
    assert b[9..17] == Le(f.deadline, 8) && b[17..25] == Le(f.now, 8);
    FromLeLe(f.deadline, 8);
    FromLeLe(f.now, 8);
  }

  lemma PackUnpack(b: seq<byte>)
    requires Unpack(b).Some?
    ensures FieldsValid(Unpack(b).value) && Pack(Unpack(b).value) == b
  {
    LeFromLe(b[9..17]);
    LeFromLe(b[17..25]);
    assert b == b[..4] + [b[4]] + b[5..9] + b[9..17] + b[17..25] + b[25..];
  }

  // `timestamp_millis() as u64 * 1_000_000`: negative milliseconds wrap, and a product of
  // 2^64 or more overflows.
  function Nanos(ms: int): Option<nat>
    requires -0x8000_0000_0000_0000 <= ms < 0x8000_0000_0000_0000
  {
    var u: nat := if ms < 0 then ms + 0x1_0000_0000_0000_0000 else ms;
    if u * 1_000_000 < 0x1_0000_0000_0000_0000 then Some(u * 1_000_000) else None
  }

  lemma NanosFit(ms: int)
    requires -0x8000_0000_0000_0000 <= ms < 0x8000_0000_0000_0000
    ensures Nanos(ms).Some? <==> 0 <= ms <= 18446744073709
    ensures Nanos(ms).Some? ==> Nanos(ms).value == ms * 1_000_000
  {
  }

  // `nonce[at..at + s.len()].copy_from_slice(s)`
  method CopyFromSlice(nonce: array<byte>, at: nat, s: seq<byte>)
    requires at + |s| <= nonce.Length
    modifies nonce
    ensures nonce[at..at + |s|] == s
    ensures nonce[..at] == old(nonce[..at]) && nonce[at + |s|..] == old(nonce[at + |s|..])
  {
    for i := 0 to |s|
      invariant nonce[at..at + i] == s[..i]
      invariant nonce[..at] == old(nonce[..at]) && nonce[at + |s|..] == old(nonce[at + |s|..])
    {
      nonce[at + i] := s[i];
      assert nonce[at..at + i + 1] == nonce[at..at + i] + [s[i]];
    }
  }

  // `null` stands for the overflow panic of a checked build.
  method BuildNonce(salt: seq<byte>, deadlineMs: int, nowMs: int, randomTail: seq<byte>) returns (nonce: array?<byte>)
    requires |salt| == 4 && |randomTail| == 7
    requires -0x8000_0000_0000_0000 <= deadlineMs < 0x8000_0000_0000_0000
    requires -0x8000_0000_0000_0000 <= nowMs < 0x8000_0000_0000_0000
    ensures nonce == null <==> Nanos(deadlineMs).None? || Nanos(nowMs).None?
    ensures nonce != null ==>
              && fresh(nonce)
              && var f := NonceFields(salt, Nanos(deadlineMs).value, Nanos(nowMs).value, randomTail);
                 nonce[..] == Pack(f) && Unpack(nonce[..]) == Some(f)
  {
    var deadlineNs, nowNs := Nanos(deadlineMs), Nanos(nowMs);
    if deadlineNs.None? || nowNs.None? { return null; }
    var a := new byte[32](i => 0);
    CopyFromSlice(a, 0, MAGIC);
    a[4] := 0;
    assert a[..5] == MAGIC + [0];
    CopyFromSlice(a, 5, salt);
    assert a[..9] == a[..5] + a[5..9];
    CopyFromSlice(a, 9, Le(deadlineNs.value, 8));
    assert a[..17] == a[..9] + a[9..17];
    CopyFromSlice(a, 17, Le(nowNs.value, 8));
    assert a[..25] == a[..17] + a[17..25];
    CopyFromSlice(a, 25, randomTail);
    assert a[..] == a[..25] + a[25..];
    Pow256Values();
    UnpackPack(NonceFields(salt, deadlineNs.value, nowNs.value, randomTail));
    nonce := a;
  }
}
