/** Numbers written in a base from 2 to 36 (`_format_base` and `_twos_complement` in
    src/numbers_parser/cell.py): digits 0-9 then A-Z, most significant first, zero-filled to a
    minimum width, with a minus sign or, in bases 2, 8 and 16, as a two's complement of at
    least 32 bits. */
module BaseFormat {
  import Text

  function Pow(b: nat, k: nat): (r: nat)
    requires b >= 2
    ensures r >= 1
  {
    if k == 0 then 1 else b * Pow(b, k - 1)
  }

  lemma {:induction false} PowMonotone(b: nat, j: nat, k: nat)
    requires b >= 2 && j < k
    ensures Pow(b, j) < Pow(b, k)
    decreases k
  {
    if j < k - 1 {
      PowMonotone(b, j, k - 1);
    }
  }

  /** The base-`base` digits of `n`, most significant first; none for zero. */
  function Digits(n: nat, base: nat): (r: seq<nat>)
    requires 2 <= base
    ensures (r == []) <==> (n == 0)
  {
    if n == 0 then [] else Digits(n / base, base) + [n % base]
  }

  /** Euclidean division by the base, and that it shrinks a positive number. */
  lemma DivSplit(n: nat, base: nat)
    requires base >= 2
    ensures n == (n / base) * base + n % base && n % base < base
    ensures n >= 1 ==> n / base < n
  {
  }

  /** Every digit is below the base. */
  lemma {:induction false} DigitsBelow(n: nat, base: nat)
    requires 2 <= base
    ensures forall k :: 0 <= k < |Digits(n, base)| ==> Digits(n, base)[k] < base
  {
    if n > 0 {
      DivSplit(n, base);
      DigitsBelow(n / base, base);
    }
  }

  /** The leading digit of a positive number is not zero. */
  lemma {:induction false} DigitsLeading(n: nat, base: nat)
    requires 2 <= base && n >= 1
    ensures Digits(n, base)[0] != 0
  {
    DivSplit(n, base);
    var m := n / base;
    if m > 0 {
      DigitsLeading(m, base);
      assert Digits(n, base)[0] == Digits(m, base)[0];
    } else {
      assert Digits(n, base) == [n % base];
    }
  }

  /** The number a digit sequence stands for, most significant first. */
  function ValueOf(ds: seq<nat>, base: nat): nat
  {
    if ds == [] then 0 else ValueOf(ds[..|ds| - 1], base) * base + ds[|ds| - 1]
  }

  lemma {:induction false} ValueOfDigits(n: nat, base: nat)
    requires 2 <= base
    ensures ValueOf(Digits(n, base), base) == n
  {
    if n > 0 {
      var ds := Digits(n, base);
      assert ds[..|ds| - 1] == Digits(n / base, base);
      DivSplit(n, base);
      ValueOfDigits(n / base, base);
    }
  }

  lemma DigitsLenStep(n: nat, base: nat)
    requires 2 <= base && n >= 1
    ensures |Digits(n, base)| == |Digits(n / base, base)| + 1
  {
  }

  /** One more digit multiplies the bracketing powers by the base. */
  lemma StepBounds(base: nat, m: nat, r: nat, d: nat)
    requires base >= 2 && d >= 1 && r < base
    requires Pow(base, d - 1) <= m < Pow(base, d)
    ensures Pow(base, d) <= m * base + r < Pow(base, d + 1)
  {
    assert base * Pow(base, d - 1) <= base * m;
    assert base * (m + 1) <= base * Pow(base, d);
  }

  /** `n` has exactly as many digits as the power of the base it lies below. */
  lemma {:induction false} DigitsLength(n: nat, base: nat)
    requires 2 <= base && n >= 1
    ensures Pow(base, |Digits(n, base)| - 1) <= n < Pow(base, |Digits(n, base)|)
  {
    var m := n / base;
    var L := |Digits(n, base)|;
    DigitsLenStep(n, base);
    DivSplit(n, base);
    if m == 0 {
      assert L == 1;
      assert Pow(base, 1) == base;
    } else {
      DigitsLength(m, base);
      var d := |Digits(m, base)|;
      assert L == d + 1;
      StepBounds(base, m, n % base, d);
      assert Pow(base, d) <= n < Pow(base, d + 1);
    }
  }

  /** The number of digits is fixed by the powers of the base that bracket `n`. */
  lemma DigitsLengthIs(n: nat, base: nat, k: nat)
    requires 2 <= base && k >= 1 && Pow(base, k - 1) <= n < Pow(base, k)
    ensures |Digits(n, base)| == k
  {
    DigitsLength(n, base);
    var d := |Digits(n, base)|;
    if d < k - 1 {
      PowMonotone(base, d, k - 1);
    } else if d > k {
      PowMonotone(base, k, d - 1);
    }
  }

  /** `INT_TO_BASE_CHAR[d]`: "0" to "9", then "A" to "Z"; only digits below 36 occur. */
  function DigitChar(d: nat): char
  {
    if d < 10 then ('0' as int + d) as char
    else if d < 36 then ('A' as int + d - 10) as char
    else '?'
  }

  /** The characters of a digit sequence. */
  function Spell(ds: seq<nat>): (s: string)
    ensures |s| == |ds|
  {
    if ds == [] then "" else Spell(ds[..|ds| - 1]) + [DigitChar(ds[|ds| - 1])]
  }

  lemma {:induction false} SpellAt(ds: seq<nat>, k: nat)
    requires k < |ds|
    ensures Spell(ds)[k] == DigitChar(ds[k])
  {
    if k < |ds| - 1 {
      SpellAt(ds[..|ds| - 1], k);
    }
  }

  /** The digit a character stands for when `int(s, base)` reads it. */
  function CharValue(c: char): nat
  {
    if '0' <= c <= '9' then c as int - '0' as int
    else if 'A' <= c <= 'Z' then c as int - 'A' as int + 10
    else 0
  }

  /** `int(s, base)` for a string of digit characters. */
  function ReadBase(s: string, base: nat): nat
  {
    if s == [] then 0 else ReadBase(s[..|s| - 1], base) * base + CharValue(s[|s| - 1])
  }

  lemma CharValueOf(d: nat)
    requires d < 36
    ensures CharValue(DigitChar(d)) == d
  {
  }

  lemma {:induction false} ReadSpell(ds: seq<nat>, base: nat)
    requires forall k :: 0 <= k < |ds| ==> ds[k] < 36
    ensures ReadBase(Spell(ds), base) == ValueOf(ds, base)
  {
    if ds != [] {
      var s := Spell(ds);
      assert s[..|s| - 1] == Spell(ds[..|ds| - 1]);
      ReadSpell(ds[..|ds| - 1], base);
      CharValueOf(ds[|ds| - 1]);
    }
  }

  /** Digits written out read back as the number. */
  lemma ReadDigits(t: nat, base: nat)
    requires 2 <= base <= 36
    ensures ReadBase(Spell(Digits(t, base)), base) == t
  {
    DigitsBelow(t, base);
    ReadSpell(Digits(t, base), base);
    ValueOfDigits(t, base);
  }

  /** `str.rjust(width, fill)`. */
  function RJust(s: string, width: nat, fill: char): (r: string)
    ensures |r| == if |s| >= width then |s| else width
  {
    if |s| >= width then s else seq(width - |s|, _ => fill) + s
  }

  /** `str.zfill(width)` on a string without a sign. */
  function ZFill(s: string, width: nat): string
  {
    RJust(s, width, '0')
  }

  /** Leading zeros do not change the value read. */
  lemma {:induction false} ReadLeadingZeros(z: nat, s: string, base: nat)
    ensures ReadBase(seq(z, _ => '0') + s, base) == ReadBase(s, base)
    decreases |s|
  {
    var w := seq(z, _ => '0') + s;
    if s == [] {
      assert w == seq(z, _ => '0');
      ReadZeros(z, base);
    } else {
      assert w[..|w| - 1] == seq(z, _ => '0') + s[..|s| - 1];
      ReadLeadingZeros(z, s[..|s| - 1], base);
    }
  }

  lemma {:induction false} ReadZeros(z: nat, base: nat)
    ensures ReadBase(seq(z, _ => '0'), base) == 0
  {
    if z > 0 {
      assert seq(z, _ => '0')[..z - 1] == seq(z - 1, _ => '0');
      ReadZeros(z - 1, base);
    }
  }

  /** Digits zero-filled to a width still read as the number. */
  lemma ReadZFill(n: nat, base: nat, width: nat)
    requires 2 <= base <= 36
    ensures ReadBase(ZFill(Spell(Digits(n, base)), width), base) == n
  {
    var s := Spell(Digits(n, base));
    ReadDigits(n, base);
    if |s| < width {
      ReadLeadingZeros(width - |s|, s, base);
    }
  }

  // ---- Two's complement ----

  /** `math.ceil(math.log2(n))` for n >= 1, computed exactly: the least k with 2^k >= n. */
  function CeilLog2(n: nat): (k: nat)
    requires n >= 1
    ensures Pow(2, k) >= n
    ensures k > 0 ==> Pow(2, k - 1) < n
  {
    if n == 1 then 0 else 1 + CeilLog2((n + 1) / 2)
  }

  /** The width `_twos_complement` works in: at least 32 bits, and one more than the bits of n. */
  function NumBits(n: nat): nat
    requires n >= 1
  {
    if 32 > CeilLog2(n) + 1 then 32 else CeilLog2(n) + 1
  }

  /** `_invert_bit_str`: every "1" becomes "0" and everything else "1". */
  function Invert(bits: string): (r: string)
    ensures |r| == |bits|
  {
    if bits == [] then "" else Invert(bits[..|bits| - 1]) + [if bits[|bits| - 1] == '1' then '0' else '1']
  }

  predicate IsBinary(s: string) { forall k :: 0 <= k < |s| ==> s[k] == '0' || s[k] == '1' }

  lemma {:induction false} ReadInvert(bits: string)
    requires IsBinary(bits)
    ensures ReadBase(Invert(bits), 2) + ReadBase(bits, 2) + 1 == Pow(2, |bits|)
  {
    if bits != [] {
      var i := Invert(bits);
      assert i[..|i| - 1] == Invert(bits[..|bits| - 1]);
      ReadInvert(bits[..|bits| - 1]);
    }
  }

  lemma {:induction false} ReadOnesThen(k: nat, s: string)
    ensures ReadBase(seq(k, _ => '1') + s, 2) + Pow(2, |s|) == Pow(2, k + |s|) + ReadBase(s, 2)
    decreases |s|
  {
    var w := seq(k, _ => '1') + s;
    if s == [] {
      assert w == seq(k, _ => '1');
      ReadOnes(k);
    } else {
      assert w[..|w| - 1] == seq(k, _ => '1') + s[..|s| - 1];
      ReadOnesThen(k, s[..|s| - 1]);
    }
  }

  lemma {:induction false} ReadOnes(k: nat)
    ensures ReadBase(seq(k, _ => '1'), 2) + 1 == Pow(2, k)
  {
    if k > 0 {
      assert seq(k, _ => '1')[..k - 1] == seq(k - 1, _ => '1');
      ReadOnes(k - 1);
    }
  }

  /** `_twos_complement(value, base)` for a negative value, following the code: the binary digits
      of |value| inverted, padded with ones to the width, plus one, written in the base. */
  function TwosComplement(value: int, base: nat): string
    requires value < 0 && base in {2, 8, 16}
  {
    ComplementText(Abs(value), base)
  }

  /** The text `_twos_complement` writes for magnitude n: in base 2 padded with ones to the width,
      in bases 8 and 16 as it comes. */
  function ComplementText(n: nat, base: nat): string
    requires n >= 1 && base in {2, 8, 16}
  {
    var t := Complement(n);
    if base == 2 then RJust(Spell(Digits(t, 2)), NumBits(n), '1') else Spell(Digits(t, base))
  }

  /** The number `_twos_complement` writes for a negative value of magnitude n: the binary digits
      of n inverted, padded with ones to the width, read back, plus one. */
  function Complement(n: nat): nat
    requires n >= 1
  {
    ReadBase(RJust(Invert(Spell(Digits(n, 2))), NumBits(n), '1'), 2) + 1
  }

  /** The binary digits of n fit the width with a bit to spare. */
  lemma BitsFit(n: nat)
    requires n >= 1
    ensures |Digits(n, 2)| <= NumBits(n)
    ensures n <= Pow(2, NumBits(n) - 1)
  {
    var c := CeilLog2(n);
    var w := NumBits(n);
    DigitsLength(n, 2);
    var len := |Digits(n, 2)|;
    assert len <= c + 1 by {
      if len > c + 1 {
        PowMonotone(2, c, len - 1);
      }
    }
    assert n <= Pow(2, w - 1) by {
      if c < w - 1 {
        PowMonotone(2, c, w - 1);
      }
    }
  }

  /** Binary digits spell a string of "0"s and "1"s. */
  lemma SpellBinary(n: nat)
    ensures IsBinary(Spell(Digits(n, 2)))
  {
    var ds := Digits(n, 2);
    var s := Spell(ds);
    DigitsBelow(n, 2);
    forall k | 0 <= k < |s|
      ensures s[k] == '0' || s[k] == '1'
    {
      SpellAt(ds, k);
    }
  }

  /** Inverting the bits, padding with ones and adding one gives 2^width - n. */
  lemma InvertedPlusOne(n: nat)
    requires n >= 1
    ensures Complement(n) == Pow(2, NumBits(n)) - n
  {
    var width := NumBits(n);
    var bits := Spell(Digits(n, 2));
    var len := |bits|;
    BitsFit(n);
    assert ReadBase(bits, 2) == n by {
      ReadDigits(n, 2);
    }
    var inv := Invert(bits);
    assert ReadBase(inv, 2) + n + 1 == Pow(2, len) by {
      SpellBinary(n);
      ReadInvert(bits);
    }
    var inverted := RJust(inv, width, '1');
    assert ReadBase(inverted, 2) + Pow(2, len) == Pow(2, width) + ReadBase(inv, 2) by {
      assert inverted == seq(width - len, _ => '1') + inv;
      ReadOnesThen(width - len, inv);
    }
  }

  /** 2^width - n has exactly `width` bits when n is at most 2^(width-1). */
  lemma ComplementWidth(t: nat, n: nat, width: nat)
    requires n >= 1 && width >= 1 && n <= Pow(2, width - 1) && t + n == Pow(2, width)
    ensures |Digits(t, 2)| == width
  {
    assert Pow(2, width) == 2 * Pow(2, width - 1);
    DigitsLengthIs(t, 2, width);
  }

  /** In binary the complement has exactly `NumBits` digits. */
  lemma ComplementBinaryLength(n: nat)
    requires n >= 1
    ensures |Digits(Complement(n), 2)| == NumBits(n)
  {
    InvertedPlusOne(n);
    BitsFit(n);
    ComplementWidth(Complement(n), n, NumBits(n));
  }

  lemma ComplementTextMeaning(n: nat, base: nat)
    requires n >= 1 && base in {2, 8, 16}
    ensures ReadBase(ComplementText(n, base), base) == Pow(2, NumBits(n)) - n
  {
    var t := Complement(n);
    InvertedPlusOne(n);
    ReadDigits(t, base);
    if base == 2 {
      ComplementBinaryLength(n);
    }
  }

  /** Binary digits of the full width need no padding, and lead with a one. */
  lemma FullWidthBinary(t: nat, width: nat)
    requires width >= 1 && |Digits(t, 2)| == width
    ensures RJust(Spell(Digits(t, 2)), width, '1') == Spell(Digits(t, 2))
    ensures Spell(Digits(t, 2))[0] == '1'
  {
    var ds := Digits(t, 2);
    DigitsBelow(t, 2);
    DigitsLeading(t, 2);
    SpellAt(ds, 0);
    assert ds[0] == 1;
  }

  /** In base 2 the text is the complement's own digits, `NumBits` of them, led by a one. */
  lemma ComplementTextBinary(n: nat)
    requires n >= 1
    ensures |ComplementText(n, 2)| == NumBits(n) && ComplementText(n, 2)[0] == '1'
  {
    ComplementBinaryLength(n);
    FullWidthBinary(Complement(n), NumBits(n));
  }

  /** The two's complement text reads back as 2^width - |value|, the value modulo 2^width; in
      base 2 it is exactly `NumBits` digits long and starts with a one. */
  lemma TwosComplementMeaning(value: int, base: nat)
    requires value < 0 && base in {2, 8, 16}
    ensures ReadBase(TwosComplement(value, base), base) == Pow(2, NumBits(Abs(value))) - Abs(value)
    ensures base == 2 ==> |TwosComplement(value, base)| == NumBits(Abs(value)) && TwosComplement(value, base)[0] == '1'
  {
    ComplementTextMeaning(Abs(value), base);
    if base == 2 {
      ComplementTextBinary(Abs(value));
    }
  }

  // ---- `_format_base` ----

  /** Python's `round` of a float to an int: to the nearest integer, halves to the even one. */
  function RoundHalfEven(x: real): (r: int)
    ensures x - 1.0 / 2.0 <= r as real <= x + 1.0 / 2.0
  {
    var f := x.Floor;
    var d := x - f as real;
    if d < 1.0 / 2.0 then f
    else if d > 1.0 / 2.0 then f + 1
    else if f % 2 == 0 then f
    else f + 1
  }

  function Abs(v: int): nat { if v < 0 then -v else v }

  /** What `_format_base` writes once the value is a whole number: a two's complement for a
      negative value when no minus sign is wanted in base 2, 8 or 16, else an optional "-" and the
      digits of the magnitude zero-filled to `places`. The digit loop writes nothing for zero. */
  function FormatInteger(v: int, base: nat, places: nat, useMinus: bool): string
    requires 2 <= base <= 36
  {
    if !useMinus && base in {2, 8, 16} && v < 0 then TwosComplement(v, base)
    else if v < 0 then "-" + ZFill(Spell(Digits(Abs(v), base)), places)
    else ZFill(Spell(Digits(Abs(v), base)), places)
  }

  /** `_format_base(value, format)` as written: zero is checked before rounding, so a value that
      rounds to zero takes the digit loop, which writes no digit for it. */
  function FormatBaseAsWritten(value: real, base: nat, places: nat, useMinus: bool): string
    requires 2 <= base <= 36
  {
    if value == 0.0 then ZFill("0", places)
    else FormatInteger(RoundHalfEven(value), base, places, useMinus)
  }

  /** `_format_base` with the zero test made on the rounded value, as the rest of the model uses it. */
  function FormatBase(value: real, base: nat, places: nat, useMinus: bool): string
    requires 2 <= base <= 36
  {
    var v := RoundHalfEven(value);
    if v == 0 then ZFill("0", places) else FormatInteger(v, base, places, useMinus)
  }

  /** The loop of `_format_base`: remainders are collected lowest first, then reversed. */
  method BaseDigits(value: nat, base: nat) returns (digits: seq<nat>)
    requires 2 <= base
    ensures digits == Digits(value, base)
  {
    var rest: nat := value;
    var lowFirst: seq<nat> := [];
    assert Digits(value, base) + [] == Digits(value, base);
    while rest > 0
      invariant Digits(value, base) == Digits(rest, base) + Reversed(lowFirst)
    {
      DivSplit(rest, base);
      DigitsStep(rest, base, lowFirst);
      lowFirst := lowFirst + [rest % base];
      rest := rest / base;
    }
    assert Digits(rest, base) == [];
    digits := Reversed(lowFirst);
  }

  function Reversed(s: seq<nat>): (r: seq<nat>)
    ensures |r| == |s|
    ensures forall k :: 0 <= k < |s| ==> r[k] == s[|s| - 1 - k]
  {
    if s == [] then [] else [s[|s| - 1]] + Reversed(s[..|s| - 1])
  }

  /** One turn of the digit loop: the lowest digit moves from the number to the digits read. */
  lemma DigitsStep(rest: nat, base: nat, lowFirst: seq<nat>)
    requires rest > 0 && 2 <= base
    ensures Digits(rest, base) + Reversed(lowFirst)
            == Digits(rest / base, base) + Reversed(lowFirst + [rest % base])
  {
    ReversedSnoc(lowFirst, rest % base);
    assert Digits(rest, base) == Digits(rest / base, base) + [rest % base];
    Text.AppendAssoc(Digits(rest / base, base), [rest % base], Reversed(lowFirst));
  }

  lemma ReversedSnoc(s: seq<nat>, x: nat)
    ensures Reversed(s + [x]) == [x] + Reversed(s)
  {
    assert (s + [x])[..|s|] == s;
  }

  /** `_format_base`, step by step as the code runs. */
  method FormatBaseLoop(value: real, base: nat, places: nat, useMinus: bool) returns (r: string)
    requires 2 <= base <= 36
    ensures r == FormatBaseAsWritten(value, base, places, useMinus)
  {
    if value == 0.0 {
      return ZFill("0", places);
    }
    var v := RoundHalfEven(value);
    var isNegative := false;
    var magnitude: nat;
    if !useMinus && base in {2, 8, 16} {
      if v < 0 {
        return TwosComplement(v, base);
      }
      magnitude := v;
    } else if v < 0 {
      isNegative := true;
      magnitude := -v;
    } else {
      magnitude := v;
    }
    var digits := BaseDigits(magnitude, base);
    var text := Spell(digits);
    if isNegative {
      return "-" + ZFill(text, places);
    }
    return ZFill(text, places);
  }

  /** The two versions differ only for a non-zero value that rounds to zero. */
  lemma FormatBaseAgrees(value: real, base: nat, places: nat, useMinus: bool)
    requires 2 <= base <= 36
    requires value == 0.0 || RoundHalfEven(value) != 0
    ensures FormatBaseAsWritten(value, base, places, useMinus) == FormatBase(value, base, places, useMinus)
  {
  }

  /** As written, 0.25 in base 10 with no minimum width comes out as an empty string, not "0". */
  lemma FormatBaseEmptyForSmallValues()
    ensures FormatBaseAsWritten(0.25, 10, 0, true) == ""
    ensures FormatBase(0.25, 10, 0, true) == "0"
  {
    assert RoundHalfEven(0.25) == 0;
    assert Digits(0, 10) == [];
  }

  /** "0" zero-filled reads back as zero. */
  lemma ZeroText(base: nat, places: nat)
    requires 2 <= base <= 36
    ensures var r := ZFill("0", places); r != "" && |r| >= places && ReadBase(r, base) == 0
  {
    var r := ZFill("0", places);
    assert ReadBase("0", base) == 0 by {
      assert "0"[..0] == "";
    }
    if 1 < places {
      assert r == seq(places - 1, _ => '0') + "0";
      ReadLeadingZeros(places - 1, "0", base);
    }
  }

  /** The digits of a positive magnitude, zero-filled, are at least `places` long and read back. */
  lemma UnsignedText(m: nat, base: nat, places: nat)
    requires 2 <= base <= 36 && m >= 1
    ensures var r := ZFill(Spell(Digits(m, base)), places); r != "" && |r| >= places && ReadBase(r, base) == m
  {
    ReadZFill(m, base, places);
  }

  /** A "-" before the zero-filled digits of the magnitude. */
  lemma SignedText(m: nat, base: nat, places: nat)
    requires 2 <= base <= 36 && m >= 1
    ensures var r := "-" + ZFill(Spell(Digits(m, base)), places);
            r[0] == '-' && |r| >= places + 1 && ReadBase(r[1..], base) == m
  {
    var t := ZFill(Spell(Digits(m, base)), places);
    UnsignedText(m, base, places);
    assert ("-" + t)[1..] == t;
  }

  /** The two's complement of a negative value is never empty. */
  lemma ComplementTextNonEmpty(n: nat, base: nat)
    requires n >= 1 && base in {2, 8, 16}
    ensures ComplementText(n, base) != ""
  {
    if base == 2 {
      ComplementTextBinary(n);
    } else {
      var t := Complement(n);
      assert t >= 1 by {
        InvertedPlusOne(n);
        BitsFit(n);
        assert Pow(2, NumBits(n)) == 2 * Pow(2, NumBits(n) - 1);
      }
      assert Digits(t, base) != [];
    }
  }

  /** `FormatInteger` read back: the two's complement reads as 2^width - |v|; otherwise the digits
      after an optional "-" are at least `places` long and read as |v|. */
  lemma FormatIntegerMeaning(v: int, base: nat, places: nat, useMinus: bool)
    requires 2 <= base <= 36 && v != 0
    ensures var r := FormatInteger(v, base, places, useMinus);
            r != "" &&
            (v < 0 && !useMinus && base in {2, 8, 16} ==> ReadBase(r, base) == Pow(2, NumBits(Abs(v))) - Abs(v)) &&
            (v > 0 ==> |r| >= places && ReadBase(r, base) == v) &&
            (v < 0 && (useMinus || base !in {2, 8, 16}) ==>
               r[0] == '-' && |r| >= places + 1 && ReadBase(r[1..], base) == Abs(v))
  {
    if !useMinus && base in {2, 8, 16} && v < 0 {
      TwosComplementMeaning(v, base);
      ComplementTextNonEmpty(Abs(v), base);
    } else if v < 0 {
      SignedText(Abs(v), base, places);
    } else {
      UnsignedText(Abs(v), base, places);
    }
  }

  /** What `_format_base` writes, read back: with a minus sign (or for a non-negative value) the
      digits after the optional "-" are at least `places` long and read in the base as the rounded
      magnitude; without one, a negative value reads back as its two's complement. */
  lemma FormatBaseMeaning(value: real, base: nat, places: nat, useMinus: bool)
    requires 2 <= base <= 36
    ensures var v := RoundHalfEven(value);
            var r := FormatBase(value, base, places, useMinus);
            r != "" &&
            (v < 0 && !useMinus && base in {2, 8, 16} ==> ReadBase(r, base) == Pow(2, NumBits(Abs(v))) - Abs(v)) &&
            (v >= 0 ==> |r| >= places && ReadBase(r, base) == v) &&
            (v < 0 && (useMinus || base !in {2, 8, 16}) ==>
               r[0] == '-' && |r| >= places + 1 && ReadBase(r[1..], base) == Abs(v))
  {
    var v := RoundHalfEven(value);
    if v == 0 {
      ZeroText(base, places);
    } else {
      FormatIntegerMeaning(v, base, places, useMinus);
    }
  }

  lemma FormatBaseHexExample()
    ensures FormatBase(255.0, 16, 0, true) == "FF"
  {
    assert RoundHalfEven(255.0) == 255;
    assert Digits(255, 16) == Digits(15, 16) + [15];
    assert Digits(15, 16) == Digits(0, 16) + [15];
    assert Spell([15, 15]) == "FF";
  }

  lemma FormatBaseMinusExample()
    ensures FormatBase(-5.0, 10, 3, true) == "-005"
  {
    assert FormatBase(-5.0, 10, 3, true) == FormatInteger(-5, 10, 3, true) by {
      assert RoundHalfEven(-5.0) == -5;
    }
    assert Spell(Digits(5, 10)) == "5" by {
      assert Digits(5, 10) == [5];
      assert Spell([5]) == Spell([]) + [DigitChar(5)];
    }
    assert ZFill("5", 3) == "005" by {
      assert seq(2, _ => '0') + "5" == "005";
    }
  }

  lemma FormatBaseZeroExample()
    ensures FormatBase(0.0, 2, 4, true) == "0000"
  {
    assert RoundHalfEven(0.0) == 0;
    assert seq(3, _ => '0') + "0" == "0000";
  }
}
