/** Little-endian integers and hexadecimal strings, with their round trips. */
module Encoding {
  import opened Common

  // ---- Little-endian integers ----

  function Pow256(w: nat): (p: nat)
    ensures p > 0
  {
    if w == 0 then 1 else 256 * Pow256(w - 1)
  }

  function EncodeLE(n: nat, width: nat): (bs: Bytes)
    ensures |bs| == width
  {
    if width == 0 then [] else [n % 256] + EncodeLE(n / 256, width - 1)
  }

  function DecodeLE(bs: Bytes): nat {
    if bs == [] then 0 else bs[0] + 256 * DecodeLE(bs[1..])
  }

  lemma {:induction false} DecodeEncodeLE(n: nat, width: nat)
    requires n < Pow256(width)
    ensures DecodeLE(EncodeLE(n, width)) == n
  {
    if width > 0 {
      assert n / 256 < Pow256(width - 1);
      DecodeEncodeLE(n / 256, width - 1);
      assert EncodeLE(n, width)[1..] == EncodeLE(n / 256, width - 1);
    }
  }

  lemma {:induction false} EncodeDecodeLE(bs: Bytes)
    ensures DecodeLE(bs) < Pow256(|bs|) && EncodeLE(DecodeLE(bs), |bs|) == bs
  {
    if bs != [] {
      EncodeDecodeLE(bs[1..]);
      var first, rest: int := bs[0], DecodeLE(bs[1..]);
      assert (first + 256 * rest) % 256 == first && (first + 256 * rest) / 256 == rest;
      assert bs == [bs[0]] + bs[1..];
    }
  }

  lemma Pow256Values()
    ensures Pow256(4) == 0x1_0000_0000 && Pow256(8) == 0x1_0000_0000_0000_0000
  {
    assert Pow256(2) == 65536 && Pow256(4) == 65536 * 65536 by {
      assert Pow256(1) == 256;
      assert Pow256(3) == 256 * 65536;
    }
    assert Pow256(5) == 256 * Pow256(4);
    assert Pow256(6) == 256 * Pow256(5);
    assert Pow256(7) == 256 * Pow256(6);
  }

  lemma EncodeLEInjective(m: nat, n: nat, width: nat)
    requires m < Pow256(width) && n < Pow256(width)
    requires EncodeLE(m, width) == EncodeLE(n, width)
    ensures m == n
  {
    DecodeEncodeLE(m, width);
    DecodeEncodeLE(n, width);
  }

  /** Byte `i` is the digit of weight 256 to the `i`. */
  lemma {:induction false} LittleEndian(n: nat, width: nat, i: nat)
    requires i < width
    ensures EncodeLE(n, width)[i] == n / Pow256(i) % 256
  {
    if i > 0 {
      LittleEndian(n / 256, width - 1, i - 1);
      DivideTwice(n, Pow256(i - 1));
    }
  }

  lemma DivideTwice(n: nat, p: nat)
    requires p > 0
    ensures n / 256 / p == n / (256 * p)
  {
    var q, r := n / 256 / p, n / 256 % p;
    assert n == 256 * (n / 256) + n % 256;
    assert n / 256 == p * q + r;
    Regrouped(n, p, q, r);
    Quotient(n, 256 * p, q, 256 * r + n % 256);
  }

  lemma Regrouped(n: nat, p: nat, q: nat, r: nat)
    requires n / 256 == p * q + r
    ensures n == 256 * p * q + (256 * r + n % 256)
  {
    assert n == 256 * (p * q + r) + n % 256;
    assert 256 * (p * q) == 256 * p * q;
  }

  lemma Multiple(d: nat, k: int)
    ensures k >= 1 ==> d * k >= d
    ensures k <= -1 ==> d * k + d <= 0
  {
  }

  lemma Quotient(n: nat, d: nat, q: nat, r: nat)
    requires 0 <= r < d && n == d * q + r
    ensures n / d == q
  {
    var k := n / d - q;
    assert d * (n / d) + n % d == d * q + r;
    assert d * k == r - n % d;
    Multiple(d, k);
  }

  // ---- Hexadecimal, as the bytes of an ASCII string ----

  /** "0123456789abcdef" */
  const LOWER_HEX: Bytes := [48, 49, 50, 51, 52, 53, 54, 55, 56, 57, 97, 98, 99, 100, 101, 102]

  function HexDigit(v: nat): byte
    requires v < 16
  {
    if v < 10 then 48 + v else 87 + v
  }

  /** Both cases are accepted on the way in. */
  function DigitValue(c: byte): (v: Option<nat>)
    ensures v.Some? ==> v.value < 16
  {
    if 48 <= c <= 57 then Some(c - 48)
    else if 97 <= c <= 102 then Some(c - 87)
    else if 65 <= c <= 70 then Some(c - 55)
    else None
  }

  function HexEncode(bs: Bytes): (s: Bytes)
    ensures |s| == 2 * |bs|
  {
    if bs == [] then [] else [HexDigit(bs[0] / 16), HexDigit(bs[0] % 16)] + HexEncode(bs[1..])
  }

  function HexDecode(s: Bytes): Option<Bytes> {
    if s == [] then Some([])
    else if |s| == 1 then None
    else
      var hi, lo, rest := DigitValue(s[0]), DigitValue(s[1]), HexDecode(s[2..]);
      if hi.Some? && lo.Some? && rest.Some? then Some([16 * hi.value + lo.value] + rest.value) else None
  }

  predicate IsHex(c: byte) {
    48 <= c <= 57 || 65 <= c <= 70 || 97 <= c <= 102
  }

  /** Accepted are strings of even length of digits in either case. */
  lemma {:induction false} HexAccepts(s: Bytes)
    ensures HexDecode(s).Some? <==> |s| % 2 == 0 && forall i :: 0 <= i < |s| ==> IsHex(s[i])
    decreases |s|
  {
    if |s| >= 2 {
      HexAccepts(s[2..]);
      assert forall i :: 2 <= i < |s| ==> s[i] == s[2..][i - 2];
    }
  }

  lemma {:induction false} HexRoundTrip(bs: Bytes)
    ensures HexDecode(HexEncode(bs)) == Some(bs)
  {
    if bs != [] {
      HexRoundTrip(bs[1..]);
      assert HexEncode(bs)[2..] == HexEncode(bs[1..]);
      assert bs == [bs[0]] + bs[1..];
    }
  }

  /** What the digits are: two for each byte, the high half first, in lower case. */
  lemma {:induction false} HexDigits(bs: Bytes, i: nat)
    requires i < |bs|
    ensures HexEncode(bs)[2 * i] == LOWER_HEX[bs[i] / 16] && HexEncode(bs)[2 * i + 1] == LOWER_HEX[bs[i] % 16]
  {
    if i > 0 {
      HexDigits(bs[1..], i - 1);
    }
  }

  lemma HexEncodeInjective(a: Bytes, b: Bytes)
    requires HexEncode(a) == HexEncode(b)
    ensures a == b
  {
    HexRoundTrip(a);
    HexRoundTrip(b);
  }
}
