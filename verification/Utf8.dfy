/** UTF-8 as section 3 of RFC 3629 defines it, with the strict decoder: no overlong forms, no surrogates. */
module Utf8 {
  import opened Wrappers
  import opened Bytes

  predicate IsScalar(n: int) {
    0 <= n < 0xD800 || 0xE000 <= n < 0x11_0000
  }

  function EncodeScalar(n: nat): (bs: seq<byte>)
    requires IsScalar(n)
    ensures 1 <= |bs| <= 4
  {
    if n < 0x80 then [n]
    else if n < 0x800 then Encode2(n)
    else if n < 0x1_0000 then Encode3(n)
    else Encode4(n)
  }

  function Encode2(n: nat): seq<byte>
    requires n < 0x800
  {
    [0xC0 + n / 64, 0x80 + n % 64]
  }

  function Encode3(n: nat): seq<byte>
    requires n < 0x1_0000
  {
    var m := n / 64;
    [0xE0 + m / 64, 0x80 + m % 64, 0x80 + n % 64]
  }

  function Encode4(n: nat): seq<byte>
    requires n < 0x11_0000
  {
    var m := n / 64;
    var k := m / 64;
    [0xF0 + k / 64, 0x80 + k % 64, 0x80 + m % 64, 0x80 + n % 64]
  }

  predicate Continues(b: byte) {
    0x80 <= b < 0xC0
  }

  /** The payload bits of a byte whose mark is `mark`. */
  function Payload(b: byte, mark: nat): int {
    b - mark
  }

  function Decode2(b0: byte, b1: byte): Option<nat>
    requires 0xC0 <= b0 < 0xE0
  {
    if !Continues(b1) then None
    else
      var n: nat := Payload(b0, 0xC0) * 64 + Payload(b1, 0x80);
      if n >= 0x80 then Some(n) else None
  }

  function Decode3(b0: byte, b1: byte, b2: byte): Option<nat>
    requires 0xE0 <= b0 < 0xF0
  {
    if !Continues(b1) || !Continues(b2) then None
    else
      var n: nat := (Payload(b0, 0xE0) * 64 + Payload(b1, 0x80)) * 64 + Payload(b2, 0x80);
      if n >= 0x800 && IsScalar(n) then Some(n) else None
  }

  function Decode4(b0: byte, b1: byte, b2: byte, b3: byte): Option<nat>
    requires 0xF0 <= b0
  {
    if !Continues(b1) || !Continues(b2) || !Continues(b3) then None
    else
      var n: nat := ((Payload(b0, 0xF0) * 64 + Payload(b1, 0x80)) * 64 + Payload(b2, 0x80)) * 64 + Payload(b3, 0x80);
      if n >= 0x1_0000 && IsScalar(n) then Some(n) else None
  }

  lemma RoundTrip2(n: nat)
    requires 0x80 <= n < 0x800
    ensures Decode2(Encode2(n)[0], Encode2(n)[1]) == Some(n)
  {
  }

  lemma RoundTrip3(n: nat)
    requires 0x800 <= n < 0x1_0000 && IsScalar(n)
    ensures Decode3(Encode3(n)[0], Encode3(n)[1], Encode3(n)[2]) == Some(n)
  {
    assert n == n / 64 * 64 + n % 64;
  }

  lemma RoundTrip4(n: nat)
    requires 0x1_0000 <= n < 0x11_0000
    ensures Decode4(Encode4(n)[0], Encode4(n)[1], Encode4(n)[2], Encode4(n)[3]) == Some(n)
  {
    assert n == n / 64 * 64 + n % 64 && n / 64 == n / 64 / 64 * 64 + n / 64 % 64;
  }

  lemma Canonical2(b0: byte, b1: byte)
    requires 0xC0 <= b0 < 0xE0 && Decode2(b0, b1).Some?
    ensures 0x80 <= Decode2(b0, b1).value < 0x800 && Encode2(Decode2(b0, b1).value) == [b0, b1]
  {
  }

  lemma Canonical3(b0: byte, b1: byte, b2: byte)
    requires 0xE0 <= b0 < 0xF0 && Decode3(b0, b1, b2).Some?
    ensures 0x800 <= Decode3(b0, b1, b2).value < 0x1_0000 && Encode3(Decode3(b0, b1, b2).value) == [b0, b1, b2]
  {
    Digits(Payload(b0, 0xE0) * 64 + Payload(b1, 0x80), Payload(b2, 0x80));
    Digits(Payload(b0, 0xE0), Payload(b1, 0x80));
  }

  lemma Canonical4(b0: byte, b1: byte, b2: byte, b3: byte)
    requires 0xF0 <= b0 && Decode4(b0, b1, b2, b3).Some?
    ensures Decode4(b0, b1, b2, b3).value >= 0x1_0000 && IsScalar(Decode4(b0, b1, b2, b3).value)
    ensures Encode4(Decode4(b0, b1, b2, b3).value) == [b0, b1, b2, b3]
  {
    var k := Payload(b0, 0xF0) * 64 + Payload(b1, 0x80);
    var m := k * 64 + Payload(b2, 0x80);
    Digits(m, Payload(b3, 0x80));
    Digits(k, Payload(b2, 0x80));
    Digits(Payload(b0, 0xF0), Payload(b1, 0x80));
  }

  lemma Digits(hi: nat, lo: nat)
    requires lo < 64
    ensures (hi * 64 + lo) / 64 == hi && (hi * 64 + lo) % 64 == lo
  {
  }

  /** The first scalar value and how many bytes it takes. */
  function DecodeScalar(bs: seq<byte>): (r: Option<(nat, nat)>)
    ensures r.Some? ==> IsScalar(r.value.0) && 1 <= r.value.1 <= |bs|
  {
    if bs == [] then None
    else if bs[0] < 0x80 then Some((bs[0], 1))
    else if 0xC0 <= bs[0] < 0xE0 then if |bs| < 2 then None else Sized(Decode2(bs[0], bs[1]), 2)
    else if 0xE0 <= bs[0] < 0xF0 then if |bs| < 3 then None else Sized(Decode3(bs[0], bs[1], bs[2]), 3)
    else if 0xF0 <= bs[0] then if |bs| < 4 then None else Sized(Decode4(bs[0], bs[1], bs[2], bs[3]), 4)
    else None
  }

  function Sized(n: Option<nat>, k: nat): Option<(nat, nat)> {
    match n case None => None case Some(v) => Some((v, k))
  }

  function Encode(s: string): seq<byte> {
    if s == [] then [] else EncodeScalar(s[0] as int) + Encode(s[1..])
  }

  function Decode(bs: seq<byte>): Option<string>
    decreases |bs|
  {
    if bs == [] then Some([])
    else match DecodeScalar(bs)
      case None => None
      case Some((n, k)) =>
        match Decode(bs[k..])
        case None => None
        case Some(s) => Some([n as char] + s)
  }

  lemma ScalarRoundTrip(n: nat, rest: seq<byte>)
    requires IsScalar(n)
    ensures DecodeScalar(EncodeScalar(n) + rest) == Some((n, |EncodeScalar(n)|))
  {
    if 0x80 <= n < 0x800 {
      RoundTrip2(n);
    } else if 0x800 <= n < 0x1_0000 {
      RoundTrip3(n);
    } else if 0x1_0000 <= n {
      RoundTrip4(n);
    }
  }

  /** The strict decoder accepts a scalar value in its one encoding only. */
  lemma ScalarCanonical(bs: seq<byte>)
    requires DecodeScalar(bs).Some?
    ensures EncodeScalar(DecodeScalar(bs).value.0) == bs[..DecodeScalar(bs).value.1]
  {
    if 0xC0 <= bs[0] < 0xE0 {
      Canonical2(bs[0], bs[1]);
    } else if 0xE0 <= bs[0] < 0xF0 {
      Canonical3(bs[0], bs[1], bs[2]);
    } else if 0xF0 <= bs[0] {
      Canonical4(bs[0], bs[1], bs[2], bs[3]);
    }
  }

  lemma {:induction false} DecodeEncode(s: string)
    ensures Decode(Encode(s)) == Some(s)
  {
    if s != [] {
      var n: nat := s[0] as int;
      ScalarRoundTrip(n, Encode(s[1..]));
      DecodeEncode(s[1..]);
      assert Encode(s)[|EncodeScalar(n)|..] == Encode(s[1..]);
      assert s == [s[0]] + s[1..];
    }
  }

  /** Valid UTF-8 is the encoding of what it decodes to. */
  lemma {:induction false} EncodeDecode(bs: seq<byte>)
    requires Decode(bs).Some?
    ensures Encode(Decode(bs).value) == bs
    decreases |bs|
  {
    if bs != [] {
      var (n, k) := DecodeScalar(bs).value;
      ScalarCanonical(bs);
      EncodeDecode(bs[k..]);
      var s := Decode(bs).value;
      assert s[1..] == Decode(bs[k..]).value;
      assert bs == bs[..k] + bs[k..];
    }
  }
}
