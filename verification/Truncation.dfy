// `truncate_sanitized_text` of nt-be/src/observability.rs: a byte-level cut that must not
// split a code point, proved against a cut stated on code points.
module Truncation {
  import opened Utf8

  const MAX_SANITIZED_TEXT_LEN: nat := 1024
  const SUFFIX: string := "...[truncated]"

  // How many leading code points of `s` fit into `limit` bytes.
  function Fit(s: string, limit: nat): (k: nat)
    ensures k <= |s|
  {
    if s == "" || |EncodeChar(s[0])| > limit then 0
    else 1 + Fit(s[1..], limit - |EncodeChar(s[0])|)
  }

  function Truncated(s: string): string {
    if Len(s) <= MAX_SANITIZED_TEXT_LEN then s else s[..Fit(s, MAX_SANITIZED_TEXT_LEN)] + SUFFIX
  }

  // `str::is_char_boundary`
  predicate IsCharBoundary(b: seq<byte>, i: nat) {
    i == 0 || i == |b| || (i < |b| && !IsContinuation(b[i]))
  }

  // ----- Offsets of code points -----

  lemma {:induction false} LenPrefix(s: string, k: nat)
    requires k <= |s|
    ensures Len(s[..k]) <= Len(s)
    ensures |Encode(s)| == Len(s) && Encode(s)[..Len(s[..k])] == Encode(s[..k])
    ensures k < |s| ==> Len(s[..k + 1]) == Len(s[..k]) + |EncodeChar(s[k])|
  {
    assert s == s[..k] + s[k..];
    EncodeConcat(s[..k], s[k..]);
    LenConcat(s[..k], s[k..]);
    LenIsByteLength(s[..k]);
    LenIsByteLength(s);
    if k < |s| {
      assert s[..k + 1] == s[..k] + [s[k]];
      LenConcat(s[..k], [s[k]]);
      assert [s[k]][1..] == "";
      assert Len([s[k]]) == |EncodeChar(s[k])| + Len("");
    }
  }

  lemma ByteInside(s: string, k: nat, j: nat)
    requires k < |s| && j < |EncodeChar(s[k])|
    ensures Len(s[..k]) + j < |Encode(s)| && Encode(s)[Len(s[..k]) + j] == EncodeChar(s[k])[j]
  {
    assert s == s[..k] + s[k..];
    EncodeConcat(s[..k], s[k..]);
    LenIsByteLength(s[..k]);
    assert Encode(s[k..])[j] == EncodeChar(s[k])[j];
  }

  lemma {:induction false} OffsetsAreBoundaries(s: string, k: nat)
    requires k <= |s|
    ensures IsCharBoundary(Encode(s), Len(s[..k]))
  {
    LenPrefix(s, k);
    if k < |s| {
      ByteInside(s, k, 0);
      assert !IsContinuation(EncodeChar(s[k])[0]);
    } else {
      assert s[..k] == s;
    }
  }

  lemma TrailingBytes(c: char, j: nat)
    requires 0 < j < |EncodeChar(c)|
    ensures IsContinuation(EncodeChar(c)[j])
  {
  }

  lemma {:induction false} InsideIsNoBoundary(s: string, k: nat, i: nat)
    requires k < |s| && Len(s[..k]) < i < Len(s[..k + 1])
    ensures !IsCharBoundary(Encode(s), i)
  {
    LenPrefix(s, k);
    LenPrefix(s, k + 1);
    var at := Len(s[..k]);
    ByteInside(s, k, i - at);
    TrailingBytes(s[k], i - at);
  }

  // ----- The longest prefix that fits -----

  lemma {:induction false} FitIsLongest(s: string, limit: nat)
    ensures Len(s[..Fit(s, limit)]) <= limit
    ensures Fit(s, limit) < |s| ==> Len(s[..Fit(s, limit) + 1]) > limit
  {
    var k := Fit(s, limit);
    if s != "" {
      if k == 0 {
        assert s[..1] == [s[0]] && s[..1][1..] == "";
      } else {
        var n := |EncodeChar(s[0])|;
        FitIsLongest(s[1..], limit - n);
        assert s[..k][1..] == s[1..][..k - 1];
        if k < |s| {
          assert s[..k + 1][1..] == s[1..][..k];
        }
      }
    }
  }

  // When the cut happens it loses at most three bytes below the limit.
  lemma CutPosition(s: string, limit: nat)
    requires Len(s) > limit
    ensures Fit(s, limit) < |s|
    ensures limit - 3 <= Len(s[..Fit(s, limit)]) <= limit < Len(s[..Fit(s, limit) + 1])
    ensures Len(s[..Fit(s, limit)]) == limit <==> IsCharBoundary(Encode(s), limit)
  {
    var k := Fit(s, limit);
    FitIsLongest(s, limit);
    assert s[..|s|] == s;
    LenPrefix(s, k);
    OffsetsAreBoundaries(s, k);
    if Len(s[..k]) < limit {
      InsideIsNoBoundary(s, k, limit);
    }
  }

  lemma {:induction false} AsciiLen(t: string)
    requires forall i :: 0 <= i < |t| ==> t[i] < 128 as char
    ensures Len(t) == |t|
  {
    if t != "" { AsciiLen(t[1..]); }
  }

  lemma TruncatedBound(s: string)
    ensures Len(Truncated(s)) <= 1038
    ensures Len(s) > MAX_SANITIZED_TEXT_LEN ==> Len(Truncated(s)) >= 1035
    ensures |Encode(Truncated(s))| == Len(Truncated(s))
  {
    LenIsByteLength(Truncated(s));
    if Len(s) > MAX_SANITIZED_TEXT_LEN {
      CutPosition(s, MAX_SANITIZED_TEXT_LEN);
      AsciiLen(SUFFIX);
      LenConcat(s[..Fit(s, MAX_SANITIZED_TEXT_LEN)], SUFFIX);
    }
  }

  // ----- The byte loop -----

  // The last boundary at or before `limit` is the end of the longest prefix.
  // What is cut off is replaced by the marker.
  lemma CutText(s: string)
    ensures Len(s) <= 1024 ==> Truncated(s) == s
    ensures Len(s) > 1024 ==> exists k :: 0 <= k < |s| && Truncated(s) == s[..k] + "...[truncated]"
                                          && Len(s[..k]) <= 1024 < Len(s[..k + 1])
  {
    if Len(s) > 1024 {
      CutPosition(s, 1024);
      assert Truncated(s) == s[..Fit(s, 1024)] + "...[truncated]";
    }
  }

  lemma LastBoundary(s: string, limit: nat, end: nat)
    requires Len(s) > limit
    requires end <= limit && IsCharBoundary(Encode(s), end)
    requires forall i :: end < i <= limit ==> !IsCharBoundary(Encode(s), i)
    ensures end == Len(s[..Fit(s, limit)])
  {
    var k := Fit(s, limit);
    CutPosition(s, limit);
    OffsetsAreBoundaries(s, k);
    if end > Len(s[..k]) {
      InsideIsNoBoundary(s, k, end);
    }
  }

  lemma CutBytes(s: string, limit: nat, suffix: string)
    ensures var k := Fit(s, limit);
            && Len(s[..k]) <= |Encode(s)|
            && Encode(s)[..Len(s[..k])] + Encode(suffix) == Encode(s[..k] + suffix)
  {
    LenPrefix(s, Fit(s, limit));
    EncodeConcat(s[..Fit(s, limit)], suffix);
  }

  method FloorCharBoundary(text: seq<byte>, limit: nat) returns (end: nat)
    ensures end <= limit && IsCharBoundary(text, end)
    ensures forall i :: end < i <= limit ==> !IsCharBoundary(text, i)
  {
    end := limit;
    while !IsCharBoundary(text, end)
      invariant end <= limit
      invariant forall i :: end < i <= limit ==> !IsCharBoundary(text, i)
      decreases end
    {
      end := end - 1;
    }
  }

  method TruncateSanitizedText(input: seq<byte>) returns (text: seq<byte>)
    requires Decode(input).Some?
    ensures text == Encode(Truncated(Decode(input).value))
  {
    ghost var s := Decode(input).value;
    EncodeDecode(input);
    LenIsByteLength(s);
    text := input;
    if |text| <= MAX_SANITIZED_TEXT_LEN {
      return;
    }
    var end := FloorCharBoundary(text, MAX_SANITIZED_TEXT_LEN);
    LastBoundary(s, MAX_SANITIZED_TEXT_LEN, end);
    CutBytes(s, MAX_SANITIZED_TEXT_LEN, SUFFIX);
    text := text[..end] + Encode(SUFFIX);
  }

  // ----- A second pass -----

  lemma {:induction false} FitConcat(p: string, t: string, limit: nat)
    requires Len(p) <= limit
    ensures Fit(p + t, limit) == |p| + Fit(t, limit - Len(p))
  {
    if p == "" {
      assert p + t == t;
    } else {
      assert (p + t)[1..] == p[1..] + t;
      FitConcat(p[1..], t, limit - |EncodeChar(p[0])|);
    }
  }

  lemma FitDots(d: nat)
    requires d <= 3
    ensures Fit(SUFFIX, d) == d
  {
    assert SUFFIX[1..][1..] == SUFFIX[2..] && SUFFIX[2..][1..] == SUFFIX[3..];
    assert Fit(SUFFIX[3..], 0) == 0;
    if d >= 1 { assert Fit(SUFFIX[2..], 1) == 1; }
    if d >= 2 { assert Fit(SUFFIX[1..], 2) == 2; }
  }

  // Truncation is not idempotent: dots of the marker slip in below the limit.  It is
  // exactly when nothing is cut or byte 1024 starts a code point.
  lemma TruncatedTwice(s: string)
    ensures Truncated(Truncated(s)) == Truncated(s)
       <==> Len(s) <= MAX_SANITIZED_TEXT_LEN || IsCharBoundary(Encode(s), MAX_SANITIZED_TEXT_LEN)
  {
    if Len(s) > MAX_SANITIZED_TEXT_LEN {
      CutPosition(s, MAX_SANITIZED_TEXT_LEN);
      TruncatedBound(s);
      var p := s[..Fit(s, MAX_SANITIZED_TEXT_LEN)];
      var d := MAX_SANITIZED_TEXT_LEN - Len(p);
      FitConcat(p, SUFFIX, MAX_SANITIZED_TEXT_LEN);
      FitDots(d);
      assert |Truncated(Truncated(s))| == |p| + d + |SUFFIX|;
      if d == 0 {
        assert Truncated(s)[..|p|] == p;
      }
    }
  }

  // ----- A text that is cut twice -----

  // U+20AC, three bytes.
  function Euros(n: nat): string { seq(n, i => '\U{20AC}') }

  lemma EuroBytes()
    ensures EncodeChar('\U{20AC}') == [0xE2, 0x82, 0xAC]
  {
  }

  lemma {:induction false} EuroText(n: nat)
    ensures |Encode(Euros(n))| == 3 * n
    ensures forall i :: 0 <= i < 3 * n ==> (IsContinuation(Encode(Euros(n))[i]) <==> i % 3 != 0)
  {
    if n > 0 {
      EuroBytes();
      EuroText(n - 1);
      assert Euros(n)[1..] == Euros(n - 1);
      var rest := Encode(Euros(n - 1));
      forall i | 0 <= i < 3 * n ensures IsContinuation(Encode(Euros(n))[i]) <==> i % 3 != 0 {
        assert i >= 3 ==> Encode(Euros(n))[i] == rest[i - 3];
        assert i >= 3 ==> (i - 3) % 3 == i % 3;
      }
    }
  }

  // 342 characters are 1026 bytes, and byte 1024 lies inside one.
  lemma CutTwice()
    ensures Truncated(Truncated(Euros(342))) != Truncated(Euros(342))
  {
    EuroText(342);
    LenIsByteLength(Euros(342));
    TruncatedTwice(Euros(342));
  }
}
