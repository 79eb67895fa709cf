/** The archive builders of src/numbers_parser/formula.py: the AST nodes a formula token is
    stored as when a formula is written (`text_archive`, `number_archive`, `range_archive`),
    and their relation to the text the `Formula` renderer gives back. */
module FormulaArchives {
  import opened Outcomes
  import opened Decimal
  import Text
  import Decimal128
  import NumbersRange
  import A1Notation
  import Formula

  // ---------------------------------------------------------------------------------------
  // `text_archive`: a TEXT token's literal, outer quotes stripped and `""` undoubled.

  /** The string a quoted TEXT token stands for. */
  function TextArchive(value: string): string
  {
    Text.ReplaceAll(Formula.Inner(value), "\"\"", "\"")
  }

  /** Undoubling the quotes of a text whose quotes were doubled gives the text back. */
  lemma {:induction false} UndoubleDoubled(s: string)
    ensures Text.ReplaceAll(Text.ReplaceAll(s, "\"", "\"\""), "\"\"", "\"") == s
    decreases |s|
  {
    if s != [] {
      var rest := Text.ReplaceAll(s[1..], "\"", "\"\"");
      UndoubleDoubled(s[1..]);
      if s[0] == '"' {
        assert s[..1] == "\"";
        assert Text.ReplaceAll(s, "\"", "\"\"") == "\"\"" + rest;
        Text.ReplaceAllPrefix("\"\"", rest, "\"");
        assert s == "\"" + s[1..];
      } else {
        assert s[..1] != "\"";
        var d := [s[0]] + rest;
        assert Text.ReplaceAll(s, "\"", "\"\"") == d;
        if |d| >= 2 {
          assert d[..2][0] == s[0];
          assert d[1..] == rest;
        } else {
          assert rest == [];
        }
        assert s == [s[0]] + s[1..];
      }
    }
  }

  /** `text_archive` reads back every string the `string` handler writes. */
  lemma QuoteRoundTrip(s: string)
    ensures TextArchive(Formula.Quote(s)) == s
  {
    var d := Text.ReplaceAll(s, "\"", "\"\"");
    var q := Formula.Quote(s);
    assert q[1..|q| - 1] == d;
    UndoubleDoubled(s);
  }

  // ---------------------------------------------------------------------------------------
  // `number_archive`: a NUMBER token as the decimal128 fields of a NUMBER_NODE.

  /** The two decimal fields of a NUMBER_NODE. */
  datatype NumberFields = NumberFields(decimalLow: nat, decimalHigh: int)

  /** The high word the archive stores for an exponent: the biased exponent, doubled, in the
      bits from 48 up. */
  function DecimalHigh(exponent: int): (h: int)
    ensures exponent == 0 ==> h == Formula.IntegerMarker
  {
    (Decimal128.Bias * 2 + 2 * exponent) * 0x1_0000_0000_0000
  }

  /** `int(text)` for an exponent: an optional sign, then at least one digit. A missing
      exponent is 0. */
  function ExponentValue(text: Option<string>): (r: Result<int>)
    ensures r.Err? ==> r.error == ValueError
  {
    match text
    case None => Ok(0)
    case Some(t) =>
      var signed := |t| > 0 && (t[0] == '+' || t[0] == '-');
      var digits := if signed then t[1..] else t;
      if digits == [] || !AllDigits(digits) then Err(ValueError)
      else
        var v: int := DigitsValue(digits);
        if signed && t[0] == '-' then Ok(-v) else Ok(v)
  }

  function Zeros(n: nat): (z: string)
    ensures |z| == n && AllDigits(z)
  {
    if n == 0 then "" else Zeros(n - 1) + "0"
  }

  /** `re.sub(r"0*$", "", f)`: the fraction digits without their trailing zeros. */
  function StripZeros(f: string): (r: string)
    ensures |r| <= |f| && f == r + Zeros(|f| - |r|)
    ensures r == [] || r[|r| - 1] != '0'
  {
    if f != [] && f[|f| - 1] == '0' then StripZeros(f[..|f| - 1]) else f
  }

  /** The fields of a non-integral literal `intPart.frac` with exponent text `exponent`: the
      digits down to the last non-zero fraction digit, and the exponent lowered by their
      number of fraction digits. ValueError where `float` or `int` rejects a piece. */
  function Fields(intPart: string, frac: string, exponent: Option<string>): (r: Result<NumberFields>)
    ensures r.Err? ==> r.error == ValueError
  {
    if !AllDigits(intPart) || !AllDigits(frac) then Err(ValueError)
    else
      var e :- ExponentValue(exponent);
      var kept := StripZeros(frac);
      KeptDigits(intPart, frac);
      Ok(NumberFields(DigitsValue(intPart + kept), DecimalHigh(e - |kept|)))
  }

  lemma KeptDigits(intPart: string, frac: string)
    requires AllDigits(intPart) && AllDigits(frac)
    ensures AllDigits(intPart + StripZeros(frac))
  {
    var kept := StripZeros(frac);
    assert kept == frac[..|kept|];
  }

  /** The significand and exponent text of a literal: `value.split("E")` unpacked into two,
      or the whole literal and no exponent. */
  function SplitExponent(value: string): (r: Result<(string, Option<string>)>)
    ensures r.Err? ==> r.error == ValueError
  {
    var parts := Text.Split(value, 'E');
    if |parts| == 1 then Ok((value, None))
    else if |parts| == 2 then Ok((parts[0], Some(parts[1])))
    else Err(ValueError)
  }

  /** `number_archive` as written. `integral` is `int(float(value))` when the literal's value
      is a whole number, and None otherwise. A non-integral literal takes the fraction digits
      from `significand.split(".")[1]`, which does not exist when the significand has no
      point. */
  function NumberArchiveAsWritten(value: string, integral: Option<nat>): (r: Result<NumberFields>)
    ensures integral.Some? ==> r == Ok(NumberFields(integral.value, DecimalHigh(0)))
  {
    if integral.Some? then Ok(NumberFields(integral.value, Formula.IntegerMarker))
    else
      var (significand, exponent) :- SplitExponent(value);
      var pieces := Text.Split(significand, '.');
      if |pieces| < 2 then Err(IndexError)
      else if |pieces| > 2 then Err(ValueError)
      else Fields(pieces[0], pieces[1], exponent)
  }

  /** `number_archive` with a significand without a point read as having no fraction
      digits. */
  function NumberArchive(value: string, integral: Option<nat>): (r: Result<NumberFields>)
    ensures integral.Some? ==> r == Ok(NumberFields(integral.value, DecimalHigh(0)))
    ensures r.Err? ==> r.error == ValueError
  {
    if integral.Some? then Ok(NumberFields(integral.value, Formula.IntegerMarker))
    else
      var (significand, exponent) :- SplitExponent(value);
      var pieces := Text.Split(significand, '.');
      if |pieces| > 2 then Err(ValueError)
      else Fields(pieces[0], if |pieces| == 2 then pieces[1] else "", exponent)
  }

  /** The node of a whole number renders as exactly its `decimal_low`, and that text reads
      back as the number. */
  lemma IntegerRendersExactly(value: string, n: nat, node: Formula.Node)
    requires NumberArchive(value, Some(n)) == Ok(NumberFields(node.decimalLow, node.decimalHigh))
    ensures Formula.LeafText(Formula.Number, node) == Some(DecimalString(n))
    ensures DigitsValue(DecimalString(n)) == n
  {
    DigitsValueOfDecimalString(n);
  }

  /** Appending zeros multiplies a digit string's value by a power of ten. */
  lemma {:induction false} DigitsValueZeros(s: string, n: nat)
    requires AllDigits(s)
    ensures AllDigits(s + Zeros(n)) && DigitsValue(s + Zeros(n)) == DigitsValue(s) * Pow10(n)
  {
    if n > 0 {
      DigitsValueZeros(s, n - 1);
      var u := s + Zeros(n - 1);
      assert s + Zeros(n) == u + "0";
      AppendZero(u);
      MulTen(DigitsValue(s), Pow10(n - 1));
    } else {
      assert s + Zeros(n) == s;
    }
  }

  lemma AppendZero(u: string)
    requires AllDigits(u)
    ensures AllDigits(u + "0") && DigitsValue(u + "0") == DigitsValue(u) * 10
  {
    var t := u + "0";
    assert t[..|t| - 1] == u;
  }

  lemma MulTen(a: nat, p: nat)
    ensures (a * p) * 10 == a * (10 * p)
  {
  }

  function Pow10(n: nat): (p: nat)
    ensures p >= 1
  {
    if n == 0 then 1 else 10 * Pow10(n - 1)
  }

  /** The fields stand for the literal's number exactly: `decimal_low × 10^exponent` equals
      `intPart.frac × 10^e`, as both are the digits `intPart + frac` scaled by the same
      power, the dropped zeros moved from the digits into the exponent. */
  lemma FieldsExact(intPart: string, frac: string, exponent: Option<string>, e: int)
    requires AllDigits(intPart) && AllDigits(frac) && ExponentValue(exponent) == Ok(e)
    ensures Fields(intPart, frac, exponent).Ok? && AllDigits(intPart + frac)
    ensures var f := Fields(intPart, frac, exponent).value;
            var z := |frac| - |StripZeros(frac)|;
            f.decimalLow * Pow10(z) == DigitsValue(intPart + frac)
            && f.decimalHigh == DecimalHigh(e - |frac| + z)
  {
    var kept := StripZeros(frac);
    var z := |frac| - |kept|;
    FieldsValue(intPart, frac, exponent, e);
    DigitsValueZeros(intPart + kept, z);
    Text.AppendAssoc(intPart, kept, Zeros(z));
  }

  lemma FieldsValue(intPart: string, frac: string, exponent: Option<string>, e: int)
    requires AllDigits(intPart) && AllDigits(frac) && ExponentValue(exponent) == Ok(e)
    ensures AllDigits(intPart + StripZeros(frac))
    ensures Fields(intPart, frac, exponent)
            == Ok(NumberFields(DigitsValue(intPart + StripZeros(frac)), DecimalHigh(e - |StripZeros(frac)|)))
  {
    KeptDigits(intPart, frac);
  }

  /** An exponent without a point in its significand, such as "1E-1" (the token "=1E-1"
      yields): as written the archive fails with IndexError; read with no fraction digits it
      is the significand's digits at the given exponent. */
  lemma {:induction false} PointlessSignificand(d: string, x: string, e: int)
    requires AllDigits(d) && ExponentValue(Some(x)) == Ok(e)
    requires forall j :: 0 <= j < |x| ==> x[j] != 'E'
    ensures NumberArchiveAsWritten(d + "E" + x, None) == Err(IndexError)
    ensures NumberArchive(d + "E" + x, None) == Ok(NumberFields(DigitsValue(d), DecimalHigh(e)))
  {
    SignificandPieces(d, x);
    var ad := NumberArchiveAsWritten(d + "E" + x, None);
    assert ad == Err(IndexError);
    assert StripZeros("") == "" && d + "" == d;
    assert Fields(d, "", Some(x)) == Ok(NumberFields(DigitsValue(d), DecimalHigh(e)));
  }

  /** A digit string followed by an exponent splits at the "E", and the digits hold no point. */
  lemma SignificandPieces(d: string, x: string)
    requires AllDigits(d)
    requires forall j :: 0 <= j < |x| ==> x[j] != 'E'
    ensures SplitExponent(d + "E" + x) == Ok((d, Some(x)))
    ensures Text.Split(d, '.') == [d]
  {
    assert forall j :: 0 <= j < |d| ==> d[j] != 'E' && d[j] != '.';
    Text.SplitPiece(x, [], 'E');
    Text.SplitPiece(d, x, 'E');
    Text.SplitPiece(d, [], '.');
  }

  /** "1E-1" (one tenth) raises IndexError as written. */
  lemma OneTenthAsWritten()
    ensures NumberArchiveAsWritten("1E-1", None) == Err(IndexError)
    ensures NumberArchive("1E-1", None) == Ok(NumberFields(1, DecimalHigh(-1)))
  {
    var d, x := "1", "-1";
    MinusOne(x);
    assert AllDigits(d) && DigitsValue(d) == 1;
    PointlessSignificand(d, x, -1);
    assert d + "E" + x == "1E-1";
  }

  lemma MinusOne(x: string)
    requires x == "-1"
    ensures ExponentValue(Some(x)) == Ok(-1) && forall j :: 0 <= j < |x| ==> x[j] != 'E'
  {
    assert |x| == 2 && x[0] == '-' && x[1] == '1';
    var one := x[1..];
    assert one == "1";
    assert AllDigits(one) && DigitsValue(one) == 1;
  }

  // ---------------------------------------------------------------------------------------
  // `range_archive`, CELL case: a cell reference relative to the formula's own cell.

  /** The row and column parts of a CELL_REFERENCE_NODE: absolute indexes, or offsets from
      the formula's cell. */
  datatype CellNode = CellNode(row: int, rowAbsolute: bool, column: int, columnAbsolute: bool)

  /** The CELL case of `range_archive` for a formula at (`row`, `col`); TypeError where the
      reference has no row or column to subtract from. */
  function CellReference(r: NumbersRange.NumbersRef, row: int, col: int): (c: Result<CellNode>)
    ensures c.Ok? <==> r.rowStart.Some? && r.colStart.Some?
  {
    if r.rowStart.None? || r.colStart.None? then Err(TypeError)
    else
      Ok(CellNode(if r.rowStartAbs then r.rowStart.value else r.rowStart.value - row, r.rowStartAbs,
                  if r.colStartAbs then r.colStart.value else r.colStart.value - col, r.colStartAbs))
  }

  /** The cell a node points at from the formula's cell. */
  function Resolve(c: CellNode, row: int, col: int): (int, int)
  {
    (if c.rowAbsolute then c.row else c.row + row, if c.columnAbsolute then c.column else c.column + col)
  }

  /** A cell name, with or without "$" markers, is archived as a node that points back at
      that cell from any formula cell, and keeps the markers as its absolute flags. */
  lemma CellReferenceOfName(row: nat, col: nat, rowAbs: bool, colAbs: bool, frow: int, fcol: int)
    ensures var name := A1Notation.RowColToCell(row, col, rowAbs, colAbs).value;
            var parsed := NumbersRange.ParseNumbersRange(name);
            parsed.Ok? && CellReference(parsed.value, frow, fcol).Ok?
            && var c := CellReference(parsed.value, frow, fcol).value;
            Resolve(c, frow, fcol) == (row, col) && c.rowAbsolute == rowAbs && c.columnAbsolute == colAbs
  {
    NumbersRange.CellNameReadsBack(row, col, rowAbs, colAbs);
    var r := NumbersRange.NumbersRef(None, None, None, Some(col), Some(row), Some(col), Some(row),
                                     colAbs, rowAbs, colAbs, rowAbs);
    CellReferenceResolves(r, row, col, rowAbs, colAbs, frow, fcol);
  }

  /** The node of a single cell's reference points back at that cell. */
  lemma CellReferenceResolves(r: NumbersRange.NumbersRef, row: int, col: int, rowAbs: bool, colAbs: bool, frow: int, fcol: int)
    requires r.rowStart == Some(row) && r.colStart == Some(col) && r.rowStartAbs == rowAbs && r.colStartAbs == colAbs
    ensures CellReference(r, frow, fcol).Ok?
    ensures var c := CellReference(r, frow, fcol).value;
            Resolve(c, frow, fcol) == (row, col) && c.rowAbsolute == rowAbs && c.columnAbsolute == colAbs
  {
  }
}
