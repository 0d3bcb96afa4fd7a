// The order of Rust strings: by bytes, which is by code points.
module ByteOrder {
  import opened Sorting
  import opened Utf8
  import opened Json
  import opened JsonRoundTrip

  predicate StrLeq(a: string, b: string) { a == b || StrLess(a, b) }

  lemma {:induction false} StrTotal(a: string, b: string)
    ensures StrLeq(a, b) || StrLeq(b, a)
  {
    if a != "" && b != "" && a[0] == b[0] {
      StrTotal(a[1..], b[1..]);
      assert a == [a[0]] + a[1..] && b == [b[0]] + b[1..];
    }
  }

  lemma {:induction false} StrTransitive(a: string, b: string, c: string)
    requires StrLess(a, b) && StrLess(b, c)
    ensures StrLess(a, c)
  {
    if a != "" && a[0] == b[0] == c[0] { StrTransitive(a[1..], b[1..], c[1..]); }
  }

  lemma StrLeqIsTotalOrder()
    ensures TotalOrder(StrLeq)
  {
    forall a, b ensures StrLeq(a, b) || StrLeq(b, a) { StrTotal(a, b); }
    forall a, b, c | StrLeq(a, b) && StrLeq(b, c) ensures StrLeq(a, c) {
      if a != b && b != c { StrTransitive(a, b, c); }
    }
    forall a, b | StrLeq(a, b) && StrLeq(b, a) ensures a == b {
      if a != b { StrLessAsymmetric(a, b); }
    }
  }

  // ----- Bytes -----

  // `[u8]::cmp` answers Less.
  predicate ByteLess(a: seq<byte>, b: seq<byte>) {
    b != [] && (a == [] || a[0] < b[0] || (a[0] == b[0] && ByteLess(a[1..], b[1..])))
  }

  lemma {:induction false} CommonPrefix(p: seq<byte>, a: seq<byte>, b: seq<byte>)
    ensures ByteLess(p + a, p + b) <==> ByteLess(a, b)
  {
    if p == [] {
      assert p + a == a && p + b == b;
    } else {
      assert (p + a)[1..] == p[1..] + a && (p + b)[1..] == p[1..] + b;
      CommonPrefix(p[1..], a, b);
    }
  }

  lemma FirstDifference(a: seq<byte>, b: seq<byte>, k: nat)
    requires k < |a| && k < |b| && a[..k] == b[..k] && a[k] < b[k]
    ensures ByteLess(a, b)
  {
    CommonPrefix(a[..k], a[k..], b[k..]);
    assert a == a[..k] + a[k..] && b == b[..k] + b[k..];
  }

  // Where the encodings of two characters first differ, the smaller character has the smaller byte.
  lemma CharDifference(c: char, d: char) returns (k: nat)
    requires c < d
    ensures k < |EncodeChar(c)| && k < |EncodeChar(d)|
    ensures EncodeChar(c)[..k] == EncodeChar(d)[..k] && EncodeChar(c)[k] < EncodeChar(d)[k]
  {
    var x, y, v, w := EncodeChar(c), EncodeChar(d), c as int, d as int;
    if |x| < |y| || x[0] != y[0] { return 0; }
    if |x| == 2 || x[1] != y[1] { return 1; }
    if |x| == 3 || x[2] != y[2] { return 2; }
    return 3;
  }

  lemma CharOrder(c: char, d: char, s: seq<byte>, t: seq<byte>)
    requires c < d
    ensures ByteLess(EncodeChar(c) + s, EncodeChar(d) + t)
  {
    var x, y := EncodeChar(c), EncodeChar(d);
    var k := CharDifference(c, d);
    assert (x + s)[..k] == x[..k] && (y + t)[..k] == y[..k];
    FirstDifference(x + s, y + t, k);
  }

  lemma {:induction false} ByteLessAsymmetric(a: seq<byte>, b: seq<byte>)
    requires ByteLess(a, b)
    ensures !ByteLess(b, a)
  {
    if a != [] && a[0] == b[0] { ByteLessAsymmetric(a[1..], b[1..]); }
  }

  // Comparing texts character by character is comparing their UTF-8 bytes.
  lemma {:induction false} EncodeKeepsOrder(a: string, b: string)
    ensures StrLess(a, b) <==> ByteLess(Encode(a), Encode(b))
  {
    if a != "" && b != "" {
      var x, y := Encode(a[1..]), Encode(b[1..]);
      if a[0] < b[0] {
        CharOrder(a[0], b[0], x, y);
      } else if b[0] < a[0] {
        CharOrder(b[0], a[0], y, x);
        ByteLessAsymmetric(Encode(b), Encode(a));
      } else {
        EncodeKeepsOrder(a[1..], b[1..]);
        CommonPrefix(EncodeChar(a[0]), x, y);
      }
    }
  }
}
