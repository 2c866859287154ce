/** Unsigned variable-length integers (multiformats unsigned-varint), as used for
    the length prefixes of frames, `ls` responses and signature payloads. */
module Varint {

  type Byte = b: int | 0 <= b < 256

  type Bytes = seq<Byte>

  /** Little-endian base-128 digits; every byte but the last has its top bit set. */
  function Encode(n: nat): (s: Bytes)
    ensures |s| >= 1
  {
    if n < 128 then [n] else [128 + n % 128] + Encode(n / 128)
  }

  datatype Decoded =
    | Value(n: nat, rest: Bytes)
    | Insufficient
    | Overflow
    | NotMinimal

  /** Reads at most `limit` digits. A final zero digit after the first one is refused,
      because a shorter encoding of the same number exists. */
  function Digits(s: Bytes, limit: nat, first: bool): (d: Decoded)
    ensures d.Value? ==> |d.rest| < |s|
  {
    if s == [] then Insufficient
    else if s[0] < 128 then
      if s[0] == 0 && !first then NotMinimal else Value(s[0], s[1..])
    else if limit <= 1 then Overflow
    else
      match Digits(s[1..], limit - 1, false)
      case Value(n, rest) => Value(s[0] - 128 + 128 * n, rest)
      case other => other
  }

  /** The fixed-width accumulator drops the bits that are shifted out of it. */
  function Truncate(d: Decoded, modulus: nat): Decoded
    requires modulus > 0
  {
    match d
    case Value(n, rest) => Value(n % modulus, rest)
    case other => other
  }

  function DecodeU16(s: Bytes): Decoded {
    Truncate(Digits(s, 3, true), 0x1_0000)
  }

  function DecodeUsize(s: Bytes): Decoded {
    Truncate(Digits(s, 10, true), 0x1_0000_0000_0000_0000)
  }

  /** `n` has at most `limit` base-128 digits. */
  predicate Fits(n: nat, limit: nat) {
    limit > 0 && (n < 128 || Fits(n / 128, limit - 1))
  }

  /** Decoding inverts encoding and leaves exactly the bytes that follow. */
  lemma {:induction false} DigitsOfEncode(n: nat, rest: Bytes, limit: nat, first: bool)
    requires Fits(n, limit)
    requires first || n > 0
    ensures Digits(Encode(n) + rest, limit, first) == Value(n, rest)
  {
    var s := Encode(n) + rest;
    if n < 128 {
      assert s[1..] == rest;
    } else {
      assert s[1..] == Encode(n / 128) + rest;
      DigitsOfEncode(n / 128, rest, limit - 1, false);
    }
  }

  /** What is decoded was encoded: the digits read are those of the number, and no others. */
  lemma {:induction false} DigitsInvert(s: Bytes, limit: nat, first: bool)
    requires Digits(s, limit, first).Value?
    ensures var d := Digits(s, limit, first); s == Encode(d.n) + d.rest && (!first ==> d.n > 0)
  {
    if s[0] >= 128 {
      var d := Digits(s[1..], limit - 1, false);
      DigitsInvert(s[1..], limit - 1, false);
      var n := s[0] - 128 + 128 * d.n;
      assert n % 128 == s[0] - 128 && n / 128 == d.n;
      assert s == [s[0]] + s[1..];
    }
  }

  lemma UsizeFits(n: nat)
    requires n < 0x8000_0000_0000_0000
    ensures Fits(n, 10)
  {
    var a := n / 128;
    var b := a / 128;
    var c := b / 128;
    var d := c / 128;
    var e := d / 128;
    var f := e / 128;
    var g := f / 128;
    var h := g / 128;
    assert h < 128;
    assert Fits(h, 2) && Fits(g, 3) && Fits(f, 4) && Fits(e, 5) && Fits(d, 6);
    assert Fits(c, 7) && Fits(b, 8) && Fits(a, 9);
  }

  lemma TruncatedRoundTrip(n: nat, rest: Bytes, limit: nat, modulus: nat)
    requires Fits(n, limit) && n < modulus
    ensures Truncate(Digits(Encode(n) + rest, limit, true), modulus) == Value(n, rest)
  {
    DigitsOfEncode(n, rest, limit, true);
  }

  lemma UsizeRoundTrip(n: nat, rest: Bytes)
    requires n < 0x8000_0000_0000_0000
    ensures DecodeUsize(Encode(n) + rest) == Value(n, rest)
  {
    UsizeFits(n);
    TruncatedRoundTrip(n, rest, 10, 0x1_0000_0000_0000_0000);
  }

  /** No encoding is a proper prefix of another one, so a length prefix determines
      where the data after it begins. */
  lemma {:induction false} PrefixFree(m: nat, n: nat, x: Bytes, y: Bytes)
    requires Encode(m) + x == Encode(n) + y
    ensures m == n && x == y
  {
    FirstDigit(m, x);
    FirstDigit(n, y);
    if m >= 128 {
      PrefixFree(m / 128, n / 128, x, y);
    }
  }

  lemma {:induction false} FirstDigit(n: nat, rest: Bytes)
    ensures var s := Encode(n) + rest;
            if n < 128 then s[0] == n && s[1..] == rest
            else s[0] == 128 + n % 128 && s[1..] == Encode(n / 128) + rest
  {
  }
}
