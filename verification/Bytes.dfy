/** Bytes, little-endian words and two's-complement integers. */
module Bytes {
  import opened Param

  type byte = x: int | 0 <= x < 256

  function Pow256(k: nat): (p: nat)
    ensures p > 0
  {
    if k == 0 then 1 else 256 * Pow256(k - 1)
  }

  /** The `width` low bytes of a number, least significant first: wider numbers are cut. */
  function LeBytes(n: nat, width: nat): (bs: seq<byte>)
    ensures |bs| == width
  {
    if width == 0 then [] else [n % 256] + LeBytes(n / 256, width - 1)
  }

  function LeValue(bs: seq<byte>): nat {
    if bs == [] then 0 else bs[0] + 256 * LeValue(bs[1..])
  }

  lemma {:induction false} LeRoundTrip(n: nat, width: nat)
    ensures LeValue(LeBytes(n, width)) == n % Pow256(width)
  {
    if width > 0 {
      var m, p := n / 256, Pow256(width - 1);
      LeRoundTrip(m, width - 1);
      assert LeBytes(n, width)[1..] == LeBytes(m, width - 1);
      CutDigit(n, p);
    }
  }

  lemma CutDigit(n: nat, p: nat)
    requires p > 0
    ensures n % 256 + 256 * (n / 256 % p) == n % (256 * p)
  {
    var m := n / 256;
    var q, r := m / p, m % p;
    assert n == 256 * (q * p + r) + n % 256;
    assert n == (256 * p) * q + (256 * r + n % 256) by {
      assert 256 * (q * p) == (256 * p) * q;
    }
    DivisionUnique(n, 256 * p, q, 256 * r + n % 256);
  }

  lemma DivisionUnique(n: nat, d: nat, q: nat, r: nat)
    requires r < d && n == d * q + r
    ensures n % d == r
  {
    assert n == d * (n / d) + n % d;
    assert d * (q - n / d) == n % d - r;
    AtLeastOnce(d, q - n / d);
  }

  lemma AtLeastOnce(d: int, k: int)
    requires d > 0
    ensures k >= 1 ==> d * k >= d
    ensures k <= -1 ==> d * k <= -d
  {
    if k >= 1 {
      assert d * k == d + d * (k - 1);
    } else if k <= -1 {
      assert d * k == d * (k + 1) - d;
    }
  }

  /** Every run of bytes is the encoding of its value. */
  lemma {:induction false} LeValueBytes(bs: seq<byte>)
    ensures LeBytes(LeValue(bs), |bs|) == bs && LeValue(bs) < Pow256(|bs|)
  {
    if bs != [] {
      LeValueBytes(bs[1..]);
    }
  }

  lemma WordSizes()
    ensures Pow256(1) == 0x100 && Pow256(4) == 0x1_0000_0000 && Pow256(8) == TWO_TO_64
  {
    assert Pow256(2) == 0x1_0000;
    assert Pow256(6) == 0x1_0000_0000_0000;
  }

  function ToUnsigned(i: i64): u64 {
    if i < 0 then i + TWO_TO_64 else i
  }

  function ToSigned(u: u64): i64 {
    if u >= TWO_TO_63 then u - TWO_TO_64 else u
  }

  lemma TwosComplement(i: i64)
    ensures ToSigned(ToUnsigned(i)) == i
  {
  }
}
