// IEEE 754-2008 decimal128 values in the binary-integer-decimal encoding, as table cells
// store numbers (section 3.5 of IEEE 754-2008): 16 little-endian bytes holding a 113-bit
// integer significand in the low bits, then a 14-bit exponent biased by 0x1820, then the
// sign in the top bit.

module Decimal128 {
  import opened Bytes

  const Bias := 0x1820

  /** A decoded decimal128: the signed integer significand and the unbiased exponent. The
      number it stands for is mantissa * 10^exponent. */
  datatype Decimal = Decimal(mantissa: int, exponent: int)

  /** 10 to the power n, as a real, for any integer n. */
  function Pow10(n: int): (r: real)
    ensures r > 0.0
    decreases if n < 0 then -n else n
  {
    if n == 0 then 1.0
    else if n > 0 then 10.0 * Pow10(n - 1)
    else Pow10(n + 1) / 10.0
  }

  /** The exact number a decoded decimal stands for; rounding it to a float is not modelled. */
  function ValueOf(d: Decimal): real
  {
    d.mantissa as real * Pow10(d.exponent)
  }

  /** The biased exponent: the low 7 bits of byte 15 above the top 7 bits of byte 14. */
  function BiasedExponent(b: seq<byte>): (r: nat)
    requires |b| >= 16
    ensures r < 0x4000
  {
    (b[15] as int % 128) * 128 + b[14] as int / 2
  }

  /** The magnitude of the significand: bit 0 of byte 14 above bytes 13..0. */
  function Magnitude(b: seq<byte>): (r: nat)
    requires |b| >= 16
    ensures r < 2 * Pow256(14)
  {
    (if b[14] as int % 2 == 1 then Pow256(14) else 0) + LittleEndian(b[..14])
  }

  /** `_unpack_decimal128` (and `unpack_decimal128` outside its experimental mode) as a
      value: bit 0x80 of byte 15 negates the significand. */
  function Unpack(b: seq<byte>): (r: Decimal)
    requires |b| >= 16
    ensures r.exponent == BiasedExponent(b) - Bias
    ensures (r.mantissa < 0 ==> b[15] >= 128) && (r.mantissa > 0 ==> b[15] < 128)
    ensures r.mantissa == Magnitude(b) || r.mantissa == -(Magnitude(b) as int)
  {
    var m: int := Magnitude(b);
    Decimal(if b[15] >= 128 then -m else m, BiasedExponent(b) - Bias)
  }

  /** The loop of `_unpack_decimal128`: the significand is accumulated from byte 13 down to
      byte 0, most significant first. */
  method UnpackDecimal128(buffer: seq<byte>) returns (d: Decimal)
    requires |buffer| >= 16
    ensures d == Unpack(buffer)
  {
    var exp := (buffer[15] as int % 128) * 128 + buffer[14] as int / 2 - Bias;
    assert exp == BiasedExponent(buffer) - Bias;
    var mantissa: int := buffer[14] as int % 2;
    var i := 14;
    while i > 0
      invariant 0 <= i <= 14
      invariant mantissa == (buffer[14] as int % 2) * Pow256(14 - i) + LittleEndian(buffer[i..14])
    {
      i := i - 1;
      MantissaStep(buffer, i);
      mantissa := mantissa * 256 + buffer[i] as int;
    }
    MantissaDone(buffer);
    UnpackOf(buffer, mantissa, exp);
    if buffer[15] >= 128 {
      mantissa := -mantissa;
    }
    d := Decimal(mantissa, exp);
  }

  lemma UnpackOf(buffer: seq<byte>, m: int, exp: int)
    requires |buffer| >= 16 && m == Magnitude(buffer) && exp == BiasedExponent(buffer) - Bias
    ensures Unpack(buffer) == Decimal(if buffer[15] >= 128 then -m else m, exp)
  {
  }

  /** One more byte of the significand, taken below the ones already read. */
  lemma MantissaStep(buffer: seq<byte>, i: nat)
    requires |buffer| >= 16 && i < 14
    ensures (buffer[14] as int % 2) * Pow256(14 - i) + LittleEndian(buffer[i..14])
            == ((buffer[14] as int % 2) * Pow256(14 - (i + 1)) + LittleEndian(buffer[i + 1..14])) * 256
               + buffer[i] as int
  {
    assert buffer[i..14] == [buffer[i]] + buffer[i + 1..14];
    assert LittleEndian(buffer[i..14]) == buffer[i] + 256 * LittleEndian(buffer[i + 1..14]);
    assert Pow256(14 - i) == 256 * Pow256(14 - (i + 1));
    ShiftIn(buffer[14] as int % 2, Pow256(14 - (i + 1)), LittleEndian(buffer[i + 1..14]), buffer[i]);
  }

  /** After byte 0 the accumulated value is the magnitude of the significand. */
  lemma MantissaDone(buffer: seq<byte>)
    requires |buffer| >= 16
    ensures (buffer[14] as int % 2) * Pow256(14) + LittleEndian(buffer[0..14]) == Magnitude(buffer)
  {
    assert buffer[0..14] == buffer[..14];
    BitTimes(buffer[14] as int % 2, Pow256(14));
  }

  lemma BitTimes(h: int, p: int)
    requires h == 0 || h == 1
    ensures h * p == if h == 1 then p else 0
  {
  }

  lemma ShiftIn(h: int, x: int, rest: int, b: int)
    ensures (h * x + rest) * 256 + b == h * (256 * x) + (b + 256 * rest)
  {
  }

  /** Whether a decimal can be encoded: its significand fits 113 bits and its biased
      exponent fits 14 bits. */
  predicate Encodable(d: Decimal)
  {
    -2 * Pow256(14) < d.mantissa < 2 * Pow256(14) && 0 <= d.exponent + Bias < 0x4000
  }

  /** The 16 bytes of an encodable decimal: an independent statement of the layout that
      `Unpack` reads. */
  function Encode(d: Decimal): (b: seq<byte>)
    requires Encodable(d)
    ensures |b| == 16
  {
    var m := if d.mantissa < 0 then -d.mantissa else d.mantissa;
    var e := d.exponent + Bias;
    TopBytes(m, e, Pow256(14));
    ToLittleEndian(m % Pow256(14), 14)
      + [(m / Pow256(14)) + 2 * (e % 128), e / 128 + (if d.mantissa < 0 then 128 else 0)]
  }

  /** The two bytes above the low 14: splitting a significand below 2 * 256^14 and a 14-bit
      exponent between them and joining them again is the identity. */
  lemma TopBytes(m: nat, e: nat, p: nat)
    requires p > 0 && m < 2 * p && e < 0x4000
    ensures m / p < 2 && (m / p + 2 * (e % 128)) < 256 && e / 128 < 128
    ensures (m / p + 2 * (e % 128)) % 2 == m / p
    ensures (m / p + 2 * (e % 128)) / 2 == e % 128
    ensures (e / 128) * 128 + e % 128 == e
    ensures (m / p) * p + m % p == m
  {
    Join(m, p);
    ByteParts(m / p, e % 128);
    ExponentParts(e);
  }

  /** A quotient bit below 2 and a 7-bit value share one byte, bit 0 and bits 1-7. */
  lemma ByteParts(q: nat, r: nat)
    requires q < 2 && r < 128
    ensures q + 2 * r < 256 && (q + 2 * r) % 2 == q && (q + 2 * r) / 2 == r
  {
  }

  /** A 14-bit exponent is its high seven bits times 128 plus its low seven. */
  lemma ExponentParts(e: nat)
    requires e < 0x4000
    ensures e / 128 < 128 && (e / 128) * 128 + e % 128 == e && e % 128 < 128
  {
  }

  /** The absolute value of a significand. */
  function Abs(x: int): (r: nat)
    ensures r == x || r == -x
  {
    if x < 0 then -x else x
  }

  /** A value below 2p is its quotient bit times p plus its remainder. */
  lemma Join(m: nat, p: nat)
    requires p > 0 && m < 2 * p
    ensures m / p < 2 && (m / p) * p + m % p == m
    ensures (if m / p == 1 then p else 0) + m % p == m
  {
    if m < p {
      assert m / p == 0 && m % p == m;
    } else {
      assert m - p < p;
      assert m / p == 1 && m % p == m - p;
    }
  }

  /** The encoding's significand bits read back as the significand's magnitude... */
  lemma EncodeMagnitude(d: Decimal)
    requires Encodable(d)
    ensures Magnitude(Encode(d)) == Abs(d.mantissa)
  {
    var b := Encode(d);
    var p := Pow256(14);
    var m := Abs(d.mantissa);
    var e := d.exponent + Bias;
    TopBytes(m, e, p);
    assert b[14] as int % 2 == m / p;
    assert LittleEndian(b[..14]) == m % p by {
      assert b[..14] == ToLittleEndian(m % p, 14);
      LittleEndianOfBytes(m % p, 14);
    }
    Join(m, p);
  }

  /** ... its exponent bits as the biased exponent... */
  lemma EncodeExponent(d: Decimal)
    requires Encodable(d)
    ensures BiasedExponent(Encode(d)) == d.exponent + Bias
  {
    var b := Encode(d);
    var p := Pow256(14);
    var m := Abs(d.mantissa);
    var e := d.exponent + Bias;
    TopBytes(m, e, p);
    EncodeBytes(d);
    SignBitAbove(e / 128, d.mantissa < 0);
  }

  /** Where the encoding puts its pieces: the low 14 bytes, then the two top bytes. */
  lemma EncodeBytes(d: Decimal)
    requires Encodable(d)
    ensures var m, e := Abs(d.mantissa), d.exponent + Bias;
      Encode(d)[..14] == ToLittleEndian(m % Pow256(14), 14)
      && Encode(d)[14] as int == m / Pow256(14) + 2 * (e % 128)
      && Encode(d)[15] as int == e / 128 + (if d.mantissa < 0 then 128 else 0)
  {
    var m, e := Abs(d.mantissa), d.exponent + Bias;
    TopBytes(m, e, Pow256(14));
    var low := ToLittleEndian(m % Pow256(14), 14);
    var top: seq<byte> := [m / Pow256(14) + 2 * (e % 128), e / 128 + (if d.mantissa < 0 then 128 else 0)];
    assert Encode(d) == low + top;
    assert (low + top)[..14] == low;
    assert (low + top)[14] == top[0] && (low + top)[15] == top[1];
  }

  /** The sign bit does not disturb the seven exponent bits below it. */
  lemma SignBitAbove(x: int, negative: bool)
    requires 0 <= x < 128
    ensures (x + (if negative then 128 else 0)) % 128 == x
  {
  }

  /** ... and its sign bit as the sign. */
  lemma EncodeSign(d: Decimal)
    requires Encodable(d)
    ensures Encode(d)[15] >= 128 <==> d.mantissa < 0
  {
    var e := d.exponent + Bias;
    TopBytes(Abs(d.mantissa), e, Pow256(14));
  }

  /** Decoding the encoding gives back the decimal. */
  lemma UnpackEncode(d: Decimal)
    requires Encodable(d)
    ensures Unpack(Encode(d)) == d
  {
    EncodeMagnitude(d);
    EncodeExponent(d);
    EncodeSign(d);
  }
}
