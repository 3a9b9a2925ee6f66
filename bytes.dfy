/**
 * Octets and the fixed-width integers a Speedwire datagram carries:
 * big-endian unsigned (`int.from_bytes(b, "big")`) and big-endian two's
 * complement (`int.from_bytes(b, "big", signed=True)`).
 */
module Bytes {

  /** One octet of a datagram. */
  type uint8 = x: int | 0 <= x < 256

  /** 256 to the power n: one more than the largest n-octet unsigned value. */
  function Pow256(n: nat): (r: nat)
    ensures r >= 1
    ensures n > 0 ==> r % 2 == 0
  {
    if n == 0 then 1 else 256 * Pow256(n - 1)
  }

  /** The unsigned big-endian value of `s`; it always fits in |s| octets. */
  function BigEndian(s: seq<uint8>): (r: nat)
    ensures r < Pow256(|s|)
  {
    if s == [] then 0
    else
      var high := BigEndian(s[..|s| - 1]);
      assert high * 256 <= (Pow256(|s| - 1) - 1) * 256;
      high * 256 + s[|s| - 1]
  }

  /** The value of `s` splits into its first octet, weighted, and the rest. */
  lemma {:induction false} BigEndianHead(s: seq<uint8>)
    requires |s| > 0
    ensures BigEndian(s) == s[0] * Pow256(|s| - 1) + BigEndian(s[1..])
  {
    if |s| > 1 {
      var init := s[..|s| - 1];
      assert init[1..] == s[1..][..|s| - 2];
      BigEndianHead(init);
      Regroup(s[0], Pow256(|s| - 2), BigEndian(init[1..]), s[|s| - 1]);
    } else {
      assert s[..0] == [];
      assert s[1..] == [];
    }
  }

  /** The unsigned value reaches half the range exactly when the top bit is set. */
  lemma SignBit(s: seq<uint8>)
    requires |s| > 0
    ensures Pow256(|s|) / 2 == 128 * Pow256(|s| - 1)
    ensures BigEndian(s) >= Pow256(|s|) / 2 <==> s[0] >= 128
  {
    var p := Pow256(|s| - 1);
    BigEndianHead(s);
    if s[0] >= 128 {
      MulMonotone(128, s[0], p);
    } else {
      MulMonotone(s[0], 127, p);
    }
  }

  lemma Regroup(a: int, p: int, rest: int, c: int)
    ensures (a * p + rest) * 256 + c == a * (256 * p) + (rest * 256 + c)
  {
  }

  lemma MulMonotone(a: nat, b: nat, p: nat)
    requires a <= b
    ensures a * p <= b * p
  {
    assert b * p == a * p + (b - a) * p;
  }

  /**
   * The two's-complement big-endian value of `s`: the unsigned value, less
   * 256^|s| when the top bit of the first octet is set. No octets read as 0.
   */
  function SignedBigEndian(s: seq<uint8>): (r: int)
    ensures s == [] ==> r == 0
    ensures s != [] ==> -(Pow256(|s|) / 2) <= r < Pow256(|s|) / 2
    ensures s != [] ==> (r < 0 <==> s[0] >= 128)
  {
    if s == [] then 0
    else
      var u := BigEndian(s);
      SignBit(s);
      if u >= Pow256(|s|) / 2 then u - Pow256(|s|) else u
  }

  /**
   * `s[lo:hi]` for `lo <= hi`: the octets from `lo` up to `hi`, cut short
   * at the end of `s`, and empty when `lo` lies beyond it.
   */
  function Slice(s: seq<uint8>, lo: nat, hi: nat): (r: seq<uint8>)
    requires lo <= hi
    ensures hi <= |s| ==> r == s[lo..hi]
    ensures |s| <= lo ==> r == []
    ensures lo < |s| < hi ==> r == s[lo..]
  {
    if |s| <= lo then [] else if |s| < hi then s[lo..] else s[lo..hi]
  }

  /** The `width` octets that write `n` big-endian (its low octets when it does not fit). */
  function EncodeBigEndian(n: nat, width: nat): (r: seq<uint8>)
    ensures |r| == width
  {
    if width == 0 then [] else EncodeBigEndian(n / 256, width - 1) + [n % 256]
  }

  /** Decoding what was encoded gives the number back whenever it fits. */
  lemma {:induction false} DecodeEncode(n: nat, width: nat)
    requires n < Pow256(width)
    ensures BigEndian(EncodeBigEndian(n, width)) == n
  {
    if width > 0 {
      var s := EncodeBigEndian(n, width);
      assert s[..width - 1] == EncodeBigEndian(n / 256, width - 1);
      DecodeEncode(n / 256, width - 1);
    }
  }

  /** Encoding what was decoded gives the octets back. */
  lemma {:induction false} EncodeDecode(s: seq<uint8>)
    ensures EncodeBigEndian(BigEndian(s), |s|) == s
  {
    if s != [] {
      var init := s[..|s| - 1];
      var n := BigEndian(s);
      assert n / 256 == BigEndian(init);
      assert n % 256 == s[|s| - 1];
      EncodeDecode(init);
    }
  }

  /** Two's-complement octets of a value in the signed range of `width` octets. */
  function EncodeSigned(v: int, width: nat): (r: seq<uint8>)
    requires width > 0
    requires -(Pow256(width) / 2) <= v < Pow256(width) / 2
    ensures |r| == width
  {
    EncodeBigEndian(if v < 0 then v + Pow256(width) else v, width)
  }

  /** Reading signed octets written by EncodeSigned gives the value back. */
  lemma SignedDecodeEncode(v: int, width: nat)
    requires width > 0
    requires -(Pow256(width) / 2) <= v < Pow256(width) / 2
    ensures SignedBigEndian(EncodeSigned(v, width)) == v
  {
    var u := if v < 0 then v + Pow256(width) else v;
    DecodeEncode(u, width);
  }
}
