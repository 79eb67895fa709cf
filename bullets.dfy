/** Numbered list bullets (src/numbers_parser/bullets.py and `formatted_number` in
    src/numbers_parser/model.py). The fifteen list-number styles are the combinations of a
    numbering and a punctuation; each style has a prefix, a conversion of the zero-based
    paragraph index, and a suffix. */
module Bullets {
  import opened Outcomes
  import opened Decimal
  import Roman
  import Text

  datatype Numbering = Numeric | RomanUpper | RomanLower | AlphaUpper | AlphaLower

  /** `Decimal` styles end in ".", `DoubleParen` styles are wrapped in "(" ")", `RightParen`
      styles end in ")". */
  datatype Punctuation = Decimal | DoubleParen | RightParen

  datatype NumberType = NumberType(numbering: Numbering, punctuation: Punctuation)

  /** `BULLET_PREFIXES` */
  function Prefix(t: NumberType): string
  {
    if t.punctuation == DoubleParen then "(" else ""
  }

  /** `BULLET_SUFFIXES` */
  function Suffix(t: NumberType): string
  {
    if t.punctuation == Decimal then "." else ")"
  }

  /** `chr(code)`: a ValueError above 0x10FFFF; code points that Dafny cannot hold as a
      character (the surrogates) are reported as errors too. */
  function Chr(code: nat): (r: Result<string>)
    ensures r.Ok? ==> |r.value| == 1 && r.value[0] as int == code
    ensures code < 0xD800 ==> r.Ok?
  {
    if code < 0xD800 || 0xE000 <= code < 0x11_0000 then Ok([code as char]) else Err(ValueError)
  }

  /** `BULLET_CONVERSION`: the text that stands for paragraph `index` (counted from 0). */
  function Conversion(t: NumberType, index: nat): Result<string>
  {
    match t.numbering
    case Numeric => Ok(DecimalString(index + 1))
    case RomanUpper => Roman.RomanNumeral(index + 1)
    case RomanLower =>
      var r :- Roman.RomanNumeral(index + 1);
      Ok(Text.Lower(r))
    case AlphaUpper => Chr(index + 65)
    case AlphaLower => Chr(index + 97)
  }

  /** `formatted_number`: prefix, conversion and suffix of the style, concatenated. */
  function FormattedNumber(t: NumberType, index: nat): (r: Result<string>)
    ensures r.Ok? <==> Conversion(t, index).Ok?
    ensures r.Ok? ==> r.value == Prefix(t) + Conversion(t, index).value + Suffix(t)
  {
    var c :- Conversion(t, index);
    Ok(Prefix(t) + c + Suffix(t))
  }

  /** The bullet opens with "(" exactly for the double-paren styles, and closes with ")" for
      the paren styles and with "." for the decimal styles. */
  lemma Punctuated(t: NumberType, index: nat)
    requires FormattedNumber(t, index).Ok?
    ensures var b := FormattedNumber(t, index).value;
      && |b| >= 2
      && (b[0] == '(' <==> t.punctuation == DoubleParen)
      && b[|b| - 1] == (if t.punctuation == Decimal then '.' else ')')
  {
    var c := Conversion(t, index).value;
    assert |c| >= 1 by {
      if t.numbering == RomanUpper || t.numbering == RomanLower {
        Roman.RomanNumeralMeaning(index + 1);
        RomanFirstIsLetter(index + 1);
      }
    }
    if t.punctuation != DoubleParen {
      NotOpenParen(t, index, c);
    }
  }

  /** The first character of a bullet without a "(" prefix is the first character of its
      conversion, which is never "(". */
  lemma NotOpenParen(t: NumberType, index: nat, c: string)
    requires t.punctuation != DoubleParen
    requires Conversion(t, index) == Ok(c) && |c| >= 1
    ensures c[0] != '('
  {
    match t.numbering
    case Numeric =>
    case RomanUpper =>
      RomanFirstIsLetter(index + 1);
    case RomanLower =>
      RomanFirstIsLetter(index + 1);
    case AlphaUpper =>
    case AlphaLower =>
  }

  /** A numeral of 1..3999 starts with one of the letters I, V, X, L, C, D, M. */
  lemma RomanFirstIsLetter(v: nat)
    requires 1 <= v <= 3999
    ensures var r := Roman.RomanNumeral(v).value; |r| >= 1 && 'A' <= r[0] <= 'Z'
  {
    Roman.RomanNumeralMeaning(v);
    var p := Roman.Picks(v, 0);
    Roman.PicksTotal(v, 0);
    assert p != [];
    assert Roman.Spell(p) == Roman.Symbols[p[0]] + Roman.Spell(p[1..]);
  }

  /** Numeric styles write the one-based paragraph number in decimal. */
  lemma NumericBullet(p: Punctuation, index: nat)
    ensures FormattedNumber(NumberType(Numeric, p), index).Ok?
    ensures var b := FormattedNumber(NumberType(Numeric, p), index).value;
      var digits := b[|Prefix(NumberType(Numeric, p))|..|b| - 1];
      AllDigits(digits) && DigitsValue(digits) == index + 1
  {
    var t := NumberType(Numeric, p);
    var b := FormattedNumber(t, index).value;
    assert b[|Prefix(t)|..|b| - 1] == DecimalString(index + 1);
    DigitsValueOfDecimalString(index + 1);
  }

  /** Alphabetic styles start at "A" (or "a") for the first paragraph. */
  lemma AlphaBullet(p: Punctuation, index: nat)
    requires index + 97 < 0xD800
    ensures FormattedNumber(NumberType(AlphaUpper, p), index).Ok?
    ensures FormattedNumber(NumberType(AlphaLower, p), index).Ok?
    ensures var b := FormattedNumber(NumberType(AlphaUpper, p), index).value;
      b[|Prefix(NumberType(AlphaUpper, p))|] as int == 'A' as int + index
    ensures var b := FormattedNumber(NumberType(AlphaLower, p), index).value;
      b[|Prefix(NumberType(AlphaLower, p))|] as int == 'a' as int + index
  {
  }

  lemma Examples()
    ensures FormattedNumber(NumberType(Numeric, DoubleParen), 0) == Ok("(1)")
    ensures FormattedNumber(NumberType(RomanUpper, Decimal), 2) == Ok("III.")
    ensures FormattedNumber(NumberType(AlphaLower, RightParen), 13) == Ok("n)")
  {
    assert DecimalString(1) == "1";
    assert "(" + "1" + ")" == "(1)";
    Roman.GreedySkip(3, 0, 12);
    Roman.GreedySkip(0, 12, 13);
    assert Roman.Greedy(3, 12) == "III";
    assert "" + "III" + "." == "III.";
    assert Chr(110) == Ok("n");
    assert "" + "n" + ")" == "n)";
  }
}
