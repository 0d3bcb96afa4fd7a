// UTF-8 (RFC 3629) for Dafny's `char`, which is exactly a Unicode scalar value.
module Utf8 {
  import opened Wrappers

  type byte = x: int | 0 <= x < 256

  // ----- Encoding (RFC 3629 section 3) -----

  function EncodeChar(c: char): (b: seq<byte>)
    ensures 1 <= |b| <= 4
  {
    var v := c as int;
    if v < 0x80 then [v]
    else if v < 0x800 then [0xC0 + v / 64, 0x80 + v % 64]
    else if v < 0x1_0000 then [0xE0 + v / 64 / 64, 0x80 + v / 64 % 64, 0x80 + v % 64]
    else [0xF0 + v / 64 / 64 / 64, 0x80 + v / 64 / 64 % 64, 0x80 + v / 64 % 64, 0x80 + v % 64]
  }

  function Encode(s: string): seq<byte> {
    if s == "" then [] else EncodeChar(s[0]) + Encode(s[1..])
  }

  function Len(s: string): nat {
    if s == "" then 0 else |EncodeChar(s[0])| + Len(s[1..])
  }

  // ----- Decoding (the byte grammar of RFC 3629 section 4) -----

  predicate IsContinuation(b: byte) { 0x80 <= b < 0xC0 }

  // `high` followed by the six payload bits of a continuation byte.
  function Push(high: int, b: byte): int { high * 64 + (b - 0x80) as int }

  // The code point at the front of `b`: shortest form only, no surrogates, at most U+10FFFF.
  function DecodeOne(b: seq<byte>): Option<char> {
    if |b| >= 1 && b[0] < 0x80 then
      Some(b[0] as char)
    else if |b| >= 2 && 0xC2 <= b[0] < 0xE0 && IsContinuation(b[1]) then
      Some(Push(b[0] as int - 0xC0, b[1]) as char)
    else if |b| >= 3 && 0xE0 <= b[0] < 0xF0 && IsContinuation(b[1]) && IsContinuation(b[2]) then
      var v := Push(Push(b[0] as int - 0xE0, b[1]), b[2]);
      if v < 0x800 || 0xD800 <= v < 0xE000 then None else Some(v as char)
    else if |b| >= 4 && 0xF0 <= b[0] < 0xF5 && IsContinuation(b[1]) && IsContinuation(b[2]) && IsContinuation(b[3]) then
      var v := Push(Push(Push(b[0] as int - 0xF0, b[1]), b[2]), b[3]);
      if v < 0x1_0000 || v > 0x10_FFFF then None else Some(v as char)
    else
      None
  }

  lemma PushSplits(high: int, b: byte)
    requires IsContinuation(b)
    ensures Push(high, b) / 64 == high && 0x80 + Push(high, b) % 64 == b
  {
  }

  lemma SplitPushes(v: nat)
    ensures Push(v / 64, 0x80 + v % 64) == v
  {
  }

  lemma DecodeOneEncodes(b: seq<byte>)
    requires DecodeOne(b).Some?
    ensures EncodeChar(DecodeOne(b).value) <= b
  {
    var e := EncodeChar(DecodeOne(b).value);
    if b[0] < 0x80 {
      assert e == [b[0]];
    } else if b[0] < 0xE0 {
      PushSplits(b[0] as int - 0xC0, b[1]);
      assert e == [b[0], b[1]];
    } else if b[0] < 0xF0 {
      var v1 := Push(b[0] as int - 0xE0, b[1]);
      PushSplits(b[0] as int - 0xE0, b[1]);
      PushSplits(v1, b[2]);
      assert e == [b[0], b[1], b[2]];
    } else {
      var v1 := Push(b[0] as int - 0xF0, b[1]);
      var v2 := Push(v1, b[2]);
      PushSplits(b[0] as int - 0xF0, b[1]);
      PushSplits(v1, b[2]);
      PushSplits(v2, b[3]);
      assert e == [b[0], b[1], b[2], b[3]];
    }
  }

  lemma EncodeOneDecodes(c: char, rest: seq<byte>)
    ensures DecodeOne(EncodeChar(c) + rest) == Some(c)
  {
    var v := c as int;
    assert v < 0xD800 || 0xE000 <= v < 0x11_0000;
    SplitPushes(v);
    if v >= 0x800 {
      SplitPushes(v / 64);
      if v >= 0x1_0000 {
        SplitPushes(v / 64 / 64);
      }
    }
  }

  function Decode(b: seq<byte>): Option<string>
    decreases |b|
  {
    if b == [] then Some("")
    else match DecodeOne(b)
      case None => None
      case Some(c) =>
        DecodeOneEncodes(b);
        match Decode(b[|EncodeChar(c)|..])
        case None => None
        case Some(rest) => Some([c] + rest)
  }

  lemma DecodeStep(c: char, rest: seq<byte>)
    ensures Decode(EncodeChar(c) + rest) == if Decode(rest).None? then None else Some([c] + Decode(rest).value)
  {
    EncodeOneDecodes(c, rest);
    assert (EncodeChar(c) + rest)[|EncodeChar(c)|..] == rest;
  }

  // Decoding undoes encoding ...
  lemma {:induction false} DecodeEncode(s: string)
    ensures Decode(Encode(s)) == Some(s)
  {
    if s != "" {
      DecodeStep(s[0], Encode(s[1..]));
      DecodeEncode(s[1..]);
      assert s == [s[0]] + s[1..];
    }
  }

  // ... and encoding undoes decoding: every accepted byte string has one spelling only.
  lemma {:induction false} EncodeDecode(b: seq<byte>)
    requires Decode(b).Some?
    ensures Encode(Decode(b).value) == b
    decreases |b|
  {
    if b != [] {
      DecodeOneEncodes(b);
      var c := DecodeOne(b).value;
      var rest := b[|EncodeChar(c)|..];
      assert b == EncodeChar(c) + rest;
      DecodeStep(c, rest);
      EncodeDecode(rest);
      assert ([c] + Decode(rest).value)[1..] == Decode(rest).value;
    }
  }

  lemma EncodeInjective(s: string, t: string)
    requires Encode(s) == Encode(t)
    ensures s == t
  {
    DecodeEncode(s);
    DecodeEncode(t);
  }

  lemma {:induction false} LenIsByteLength(s: string)
    ensures Len(s) == |Encode(s)|
  {
    if s != "" { LenIsByteLength(s[1..]); }
  }

  lemma {:induction false} LenConcat(s: string, t: string)
    ensures Len(s + t) == Len(s) + Len(t)
  {
    if s == "" {
      assert s + t == t;
    } else {
      assert (s + t)[1..] == s[1..] + t;
      LenConcat(s[1..], t);
    }
  }

  lemma {:induction false} EncodeConcat(s: string, t: string)
    ensures Encode(s + t) == Encode(s) + Encode(t)
  {
    if s == "" {
      assert s + t == t;
    } else {
      assert (s + t)[1..] == s[1..] + t;
      EncodeConcat(s[1..], t);
    }
  }
}
