/** Range references in Numbers' own syntax (`parse_numbers_range` in
    src/numbers_parser/tokenizer.py): an optional "Sheet::" and "Table::" prefix, then a cell
    or a range of cells such as "$B2:C$3", or a named range such as "cats". The regular
    expression is modelled as the deterministic scan its backtracking amounts to. */
module NumbersRange {
  import opened Outcomes
  import opened Decimal
  import opened A1Notation

  /** The groups of the pattern; None is a group that did not take part in the match. The
      `range_start` and `range_end` groups, which only repeat the text of the others, are not
      kept. */
  datatype Groups = Groups(namedRef1: Option<string>, namedRef2: Option<string>,
                           colStart: Option<string>, rowStart: Option<string>,
                           colEnd: Option<string>, rowEnd: Option<string>,
                           namedRange: Option<string>)

  /** The length of the run of characters other than ':' starting at `i`. */
  function NonColonRun(s: string, i: nat): (n: nat)
    requires i <= |s|
    ensures i + n <= |s|
    ensures forall k :: i <= k < i + n ==> s[k] != ':'
    ensures i + n < |s| ==> s[i + n] == ':'
    decreases |s| - i
  {
    if i < |s| && s[i] != ':' then 1 + NonColonRun(s, i + 1) else 0
  }

  /** `(?:([^:]+)::)?` taken greedily: the leading run of characters other than ':', when it
      is not empty and is followed by "::". The rest of the pattern can hold no "::", so when
      this prefix is there the match must take it. */
  function SplitName(s: string): (r: Option<(string, string)>)
    ensures r.Some? ==> s == r.value.0 + "::" + r.value.1 && |r.value.0| >= 1 && ':' !in r.value.0
  {
    var n := NonColonRun(s, 0);
    if n >= 1 && n + 2 <= |s| && s[n + 1] == ':' then
      assert s == s[..n] + "::" + s[n + 2..];
      Some((s[..n], s[n + 2..]))
    else None
  }

  /** `\$?([0-9]+|[A-Z]+)\$?\d+` at the start of `b`: the column and row texts and where they
      end. A column of digits is as long as it can be while leaving a row; a column of letters
      and every row take the longest run. */
  function MatchCell(b: string): (r: Option<(string, string, nat)>)
    ensures r.Some? ==> r.value.2 <= |b|
  {
    var i := if |b| > 0 && b[0] == '$' then 1 else 0;
    var d := DigitRun(b, i);
    if d > 0 then DigitColumnCell(b, i + d, d) else LetterColumnCell(b, i + UpperRun(b, i), UpperRun(b, i))
  }

  /** A column of `d` digits ending at `q`. */
  function DigitColumnCell(b: string, q: nat, d: nat): (r: Option<(string, string, nat)>)
    requires d <= q <= |b|
    ensures r.Some? ==> r.value.2 <= |b|
  {
    if q + 1 < |b| && b[q] == '$' && IsDigit(b[q + 1]) then
      var e := DigitRun(b, q + 1);
      Some((b[..q], b[q..q + 1 + e], q + 1 + e))
    else if d >= 2 then
      Some((b[..q - 1], b[q - 1..q], q))
    else None
  }

  /** A column of `u` letters ending at `j`. */
  function LetterColumnCell(b: string, j: nat, u: nat): (r: Option<(string, string, nat)>)
    requires j <= |b|
    ensures r.Some? ==> r.value.2 <= |b|
  {
    if u == 0 then None
    else
      var k := if j < |b| && b[j] == '$' then j + 1 else j;
      var e := DigitRun(b, k);
      if e == 0 then None
      else Some((b[..j], b[j..k + e], k + e))
  }

  /** `(\$?([0-9]+|[A-Z]+))?(\$?\d+)?` matched against the whole of `e`, the text after ':'.
      The column is tried first, so a lone run of digits is a column. */
  function MatchEnd(e: string): (r: Option<(Option<string>, Option<string>)>)
  {
    if e == [] then Some((None, None))
    else
      var i := if e[0] == '$' then 1 else 0;
      var d := DigitRun(e, i);
      if d > 0 then
        var q := i + d;
        if q == |e| then Some((Some(e), None))
        else if e[q] == '$' && q + 1 < |e| && q + 1 + DigitRun(e, q + 1) == |e| && DigitRun(e, q + 1) >= 1 then
          Some((Some(e[..q]), Some(e[q..])))
        else None
      else
        var u := UpperRun(e, i);
        if u == 0 then None
        else
          var j := i + u;
          if j == |e| then Some((Some(e), None))
          else
            var k := if e[j] == '$' then j + 1 else j;
            var n := DigitRun(e, k);
            if n >= 1 && k + n == |e| then Some((Some(e[..j]), Some(e[j..])))
            else None
  }

  predicate IsWordStart(c: char) { 'a' <= c <= 'z' || 'A' <= c <= 'Z' || c == '_' }

  predicate IsWordChar(c: char) { IsWordStart(c) || IsDigit(c) }

  /** `[a-zA-Z_][a-zA-Z0-9_]*` */
  predicate IsName(b: string)
  {
    |b| >= 1 && IsWordStart(b[0]) && forall k :: 1 <= k < |b| ==> IsWordChar(b[k])
  }

  /** The part after the prefixes: a cell or range, tried first, else a named range. */
  function MatchBody(b: string): (r: Option<(Option<string>, Option<string>, Option<string>, Option<string>, Option<string>)>)
    ensures r.Some? && r.value.4.Some? ==> r.value.0.None? && r.value.1.None? && IsName(b) && r.value.4.value == b
    ensures r.Some? && r.value.4.None? ==> r.value.0.Some? && r.value.1.Some?
  {
    var cell := MatchCell(b);
    var range :=
      if cell.None? then None
      else
        var (col, row, p) := cell.value;
        if p == |b| then Some((Some(col), Some(row), None, None, None))
        else if b[p] == ':' then
          match MatchEnd(b[p + 1..])
          case None => None
          case Some((colEnd, rowEnd)) => Some((Some(col), Some(row), colEnd, rowEnd, None))
        else None;
    if range.Some? then range
    else if IsName(b) then Some((None, None, None, None, Some(b)))
    else None
  }

  /** The whole pattern. `$` also matches just before a final newline, which no part of the
      range can hold, so a final newline is set aside. */
  function MatchRange(s: string): Option<Groups>
  {
    var t := if |s| > 0 && s[|s| - 1] == '\n' then s[..|s| - 1] else s;
    var (ref1, rest1) := if SplitName(t).Some? then (Some(SplitName(t).value.0), SplitName(t).value.1) else (None, t);
    var (ref2, rest2) := if SplitName(rest1).Some? then (Some(SplitName(rest1).value.0), SplitName(rest1).value.1) else (None, rest1);
    match MatchBody(rest2)
    case None => None
    case Some((colStart, rowStart, colEnd, rowEnd, named)) =>
      Some(Groups(ref1, ref2, colStart, rowStart, colEnd, rowEnd, named))
  }

  /** `s.lstrip("$")` */
  function StripDollars(s: string): (r: string)
    ensures |r| <= |s| && (r == [] || r[0] != '$')
  {
    if s != [] && s[0] == '$' then StripDollars(s[1..]) else s
  }

  /** The accumulation of `col_to_index` before its final "- 1": each character counts
      `ord(c) - ord("A") + 1` in base 26, whatever the character. */
  function ColumnValue(s: string): int
  {
    if s == [] then 0 else ColumnValue(s[..|s| - 1]) * 26 + (s[|s| - 1] as int - 'A' as int + 1)
  }

  /** `col_to_index` on a string. */
  function ColToIndex(col: string): int
  {
    ColumnValue(StripDollars(col)) - 1
  }

  /** The loop of `col_to_index`: the accumulator over the column text without its "$". */
  method ColumnIndex(col: string) returns (index: int)
    ensures index == ColToIndex(col)
  {
    var t := StripDollars(col);
    var acc := 0;
    for i := 0 to |t|
      invariant acc == ColumnValue(t[..i])
    {
      assert t[..i + 1][..i] == t[..i];
      acc := acc * 26 + (t[i] as int - 'A' as int + 1);
    }
    assert t[..|t|] == t;
    return acc - 1;
  }

  /** `row_to_index` on a string: `int` of the text without its "$", less one; `int("")`
      raises ValueError. */
  function RowToIndex(row: string): (r: Result<int>)
    ensures r.Err? <==> !(|StripDollars(row)| >= 1 && AllDigits(StripDollars(row)))
  {
    var t := StripDollars(row);
    if |t| >= 1 && AllDigits(t) then Ok(DigitsValue(t) - 1) else Err(ValueError)
  }

  /** What `parse_numbers_range` returns: the sheet/table names, the named range, the
      zero-based start and end column and row (None where the regex match has ""), and whether each
      is absolute. */
  datatype NumbersRef = NumbersRef(namedRef1: Option<string>, namedRef2: Option<string>, namedRange: Option<string>,
                                   colStart: Option<int>, rowStart: Option<int>, colEnd: Option<int>, rowEnd: Option<int>,
                                   colStartAbs: bool, rowStartAbs: bool, colEndAbs: bool, rowEndAbs: bool)

  function OrEmpty(g: Option<string>): string
  {
    if g.Some? then g.value else ""
  }

  predicate StartsWithDollar(s: string) { |s| > 0 && s[0] == '$' }

  /** `parse_numbers_range` as written: each missing group is first turned into "" by `or ""`,
      so the `is not None` tests of the two converters never fire, and the row converter is
      handed "" for a named range. */
  function ParseNumbersRangeAsWritten(s: string): (r: Result<NumbersRef>)
    ensures MatchRange(s).None? ==> r == Err(ValueError)
  {
    match MatchRange(s)
    case None => Err(ValueError)
    case Some(g) =>
      var colStart := OrEmpty(g.colStart);
      var rowStart := OrEmpty(g.rowStart);
      var colEnd := OrEmpty(g.colEnd);
      var rowEnd := OrEmpty(g.rowEnd);
      var rs :- RowToIndex(rowStart);
      var re :- if rowEnd != "" then RowToIndex(rowEnd) else RowToIndex(rowStart);
      Ok(NumbersRef(g.namedRef1, g.namedRef2, g.namedRange,
                    Some(ColToIndex(colStart)), Some(rs),
                    Some(if colEnd != "" then ColToIndex(colEnd) else ColToIndex(colStart)), Some(re),
                    StartsWithDollar(colStart), StartsWithDollar(rowStart),
                    if colEnd != "" then StartsWithDollar(colEnd) else StartsWithDollar(colStart),
                    if rowEnd != "" then StartsWithDollar(rowEnd) else StartsWithDollar(rowStart)))
  }

  /** Every named range raises ValueError as written, although it matches the pattern. */
  lemma NamedRangeRaisesAsWritten(s: string)
    requires MatchRange(s).Some? && MatchRange(s).value.namedRange.Some?
    ensures ParseNumbersRangeAsWritten(s) == Err(ValueError)
  {
  }

  /** `parse_numbers_range` as its converters mean it: an absent group gives an absent index
      ("" in the match) instead of reaching `int("")`. */
  function ParseNumbersRange(s: string): (r: Result<NumbersRef>)
    ensures r.Err? <==> MatchRange(s).None?
    ensures r.Err? ==> r.error == ValueError
  {
    match MatchRange(s)
    case None => Err(ValueError)
    case Some(g) =>
      var rowStart := if g.rowStart.Some? then Some(RowIndexOf(g.rowStart.value)) else None;
      var colStart := if g.colStart.Some? then Some(ColToIndex(g.colStart.value)) else None;
      var colEnd := if g.colEnd.Some? && g.colEnd.value != "" then Some(ColToIndex(g.colEnd.value)) else colStart;
      var rowEnd := if g.rowEnd.Some? && g.rowEnd.value != "" then Some(RowIndexOf(g.rowEnd.value)) else rowStart;
      var cs := OrEmpty(g.colStart);
      var rs := OrEmpty(g.rowStart);
      var ce := OrEmpty(g.colEnd);
      var re := OrEmpty(g.rowEnd);
      Ok(NumbersRef(g.namedRef1, g.namedRef2, g.namedRange, colStart, rowStart, colEnd, rowEnd,
                    StartsWithDollar(cs), StartsWithDollar(rs),
                    if ce != "" then StartsWithDollar(ce) else StartsWithDollar(cs),
                    if re != "" then StartsWithDollar(re) else StartsWithDollar(rs)))
  }

  /** The row converter on a row the pattern matched, which always holds digits. */
  function RowIndexOf(row: string): int
  {
    var t := StripDollars(row);
    if AllDigits(t) then DigitsValue(t) - 1 else -1
  }

  /** "cats" is a named range: as written it raises ValueError, corrected it is returned with
      no cell indices. */
  lemma NamedRangeExample()
    ensures ParseNumbersRangeAsWritten("cats") == Err(ValueError)
    ensures ParseNumbersRange("cats").Ok? && ParseNumbersRange("cats").value.namedRange == Some("cats")
    ensures ParseNumbersRange("cats").value.rowStart.None? && ParseNumbersRange("cats").value.colStart.None?
  {
    assert NonColonRun("cats", 0) == 4;
    assert DigitRun("cats", 0) == 0 && UpperRun("cats", 0) == 0;
    assert IsName("cats");
  }

  /** A range with a table prefix: "T::B2:C$3" names columns 1 to 2 and rows 1 to 2 of table
      "T", with only the end row absolute. */
  lemma TableRangeExample()
    ensures ParseNumbersRange("T::B2:C$3") ==
            Ok(NumbersRef(Some("T"), None, None, Some(1), Some(1), Some(2), Some(2), false, false, false, true))
  {
    ExampleGroups();
    ExampleIndices();
  }

  lemma ExampleIndices()
    ensures ColToIndex("B") == 1 && ColToIndex("C") == 2
    ensures RowIndexOf("2") == 1 && RowIndexOf("$3") == 2
  {
    assert "B"[..0] == [] && "C"[..0] == [];
    assert "2"[..0] == [] && "3"[..0] == [];
    assert StripDollars("$3") == "3" by { assert "$3"[1..] == "3"; }
  }

  lemma ExampleGroups()
    ensures MatchRange("T::B2:C$3") == Some(Groups(Some("T"), None, Some("B"), Some("2"), Some("C"), Some("$3"), None))
  {
    var s := "T::B2:C$3";
    assert NonColonRun(s, 0) == 1;
    assert s[..1] == "T" && s[3..] == "B2:C$3";
    var b := "B2:C$3";
    assert NonColonRun(b, 0) == 2;
    ExampleBody();
  }

  lemma ExampleBody()
    ensures MatchBody("B2:C$3") == Some((Some("B"), Some("2"), Some("C"), Some("$3"), None))
  {
    var b := "B2:C$3";
    ExampleCell();
    ExampleEnd();
    assert b[3..] == "C$3";
  }

  lemma ExampleCell()
    ensures MatchCell("B2:C$3") == Some(("B", "2", 2))
  {
    var b := "B2:C$3";
    assert DigitRun(b, 0) == 0 && UpperRun(b, 0) == 1 && DigitRun(b, 1) == 1;
    assert b[..1] == "B" && b[1..2] == "2";
  }

  lemma ExampleEnd()
    ensures MatchEnd("C$3") == Some((Some("C"), Some("$3")))
  {
    var e := "C$3";
    assert DigitRun(e, 0) == 0 && UpperRun(e, 0) == 1 && DigitRun(e, 2) == 1;
    assert e[..1] == "C" && e[1..] == "$3";
  }

  /** When no end is given, the end is the start and so are its absolute flags. */
  lemma EndDefaultsToStart(s: string)
    requires MatchRange(s).Some?
    requires var g := MatchRange(s).value; OrEmpty(g.colEnd) == "" && OrEmpty(g.rowEnd) == ""
    ensures var r := ParseNumbersRange(s).value;
            r.colEnd == r.colStart && r.rowEnd == r.rowStart &&
            r.colEndAbs == r.colStartAbs && r.rowEndAbs == r.rowStartAbs
  {
  }

  /** A column of letters is bijective base 26 less one: `xl_col_to_name` writes the index
      back as the same letters. */
  lemma ColumnIndexOfLetters(letters: string)
    requires |letters| >= 1 && AllUpper(letters)
    ensures ColToIndex(letters) == LettersValue(letters) - 1
    ensures ColumnName(ColToIndex(letters), false) == Ok(letters)
  {
    ColumnValueOfLetters(letters);
    LettersOfLettersValue(letters);
    assert StripDollars(letters) == letters by { assert IsUpper(letters[0]); }
    var t := letters[..|letters| - 1];
    assert IsUpper(letters[|letters| - 1]);
    assert LettersValue(letters) == LettersValue(t) * 26 + (letters[|letters| - 1] as int - 'A' as int + 1);
    var k := LettersValue(letters);
    assert ColToIndex(letters) + 1 == k;
    assert ColumnName(k - 1, false) == Ok("" + Letters(k));
    assert "" + Letters(k) == letters;
  }

  lemma {:induction false} ColumnValueOfLetters(s: string)
    requires AllUpper(s)
    ensures ColumnValue(s) == LettersValue(s)
  {
    if s != [] {
      ColumnValueOfLetters(s[..|s| - 1]);
    }
  }

  /** A cell name written by `xl_rowcol_to_cell` reads back as that cell, with its end equal to
      its start and the "$" markers as absolute flags. */
  lemma CellNameReadsBack(row: nat, col: nat, rowAbs: bool, colAbs: bool)
    ensures ParseNumbersRange(RowColToCell(row, col, rowAbs, colAbs).value) ==
            Ok(NumbersRef(None, None, None, Some(col), Some(row), Some(col), Some(row), colAbs, rowAbs, colAbs, rowAbs))
  {
    var cp := if colAbs then "$" else "";
    var rp := if rowAbs then "$" else "";
    var letters := Letters(col + 1);
    var digits := DecimalString(row + 1);
    var s := cp + letters + rp + digits;
    assert RowColToCell(row, col, rowAbs, colAbs).value == s;
    CellMatches(cp, letters, rp, digits);
    ParseCell(s, cp + letters, rp + digits);
    ColumnOfName(col, cp);
    RowOfName(row, rp);
  }

  lemma ColumnOfName(col: nat, cp: string)
    requires cp == "" || cp == "$"
    ensures ColToIndex(cp + Letters(col + 1)) == col
    ensures StartsWithDollar(cp + Letters(col + 1)) <==> cp == "$"
  {
    var letters := Letters(col + 1);
    LettersValueOfLetters(col + 1);
    ColumnIndexOfLetters(letters);
    DollarPrefix(cp, letters);
  }

  lemma RowOfName(row: nat, rp: string)
    requires rp == "" || rp == "$"
    ensures RowIndexOf(rp + DecimalString(row + 1)) == row
    ensures StartsWithDollar(rp + DecimalString(row + 1)) <==> rp == "$"
  {
    var digits := DecimalString(row + 1);
    DollarPrefix(rp, digits);
    DigitsValueOfDecimalString(row + 1);
  }

  /** What a single cell's groups convert to. */
  lemma ParseCell(s: string, x: string, y: string)
    requires MatchRange(s) == Some(Groups(None, None, Some(x), Some(y), None, None, None))
    ensures ParseNumbersRange(s) ==
            Ok(NumbersRef(None, None, None, Some(ColToIndex(x)), Some(RowIndexOf(y)), Some(ColToIndex(x)), Some(RowIndexOf(y)),
                          StartsWithDollar(x), StartsWithDollar(y), StartsWithDollar(x), StartsWithDollar(y)))
  {
  }

  /** An optional "$" before text that does not begin with one. */
  lemma DollarPrefix(p: string, t: string)
    requires p == "" || p == "$"
    requires |t| >= 1 && t[0] != '$'
    ensures StripDollars(p + t) == t
    ensures StartsWithDollar(p + t) <==> p == "$"
  {
    if p == "$" {
      assert (p + t)[1..] == t;
    } else {
      assert p + t == t;
    }
  }

  /** "$"? letters "$"? digits matches as a single cell. */
  lemma CellMatches(cp: string, letters: string, rp: string, digits: string)
    requires cp == "" || cp == "$"
    requires rp == "" || rp == "$"
    requires |letters| >= 1 && AllUpper(letters) && |digits| >= 1 && AllDigits(digits)
    ensures MatchRange(cp + letters + rp + digits) ==
            Some(Groups(None, None, Some(cp + letters), Some(rp + digits), None, None, None))
  {
    var x := cp + letters;
    var y := rp + digits;
    var s := x + y;
    assert cp + letters + rp + digits == s;
    NoColonIn(cp, letters, rp, digits);
    CellOfParts(cp, letters, rp, digits);
    PlainCell(s, x, y);
  }

  lemma CellOfParts(cp: string, letters: string, rp: string, digits: string)
    requires cp == "" || cp == "$"
    requires rp == "" || rp == "$"
    requires |letters| >= 1 && AllUpper(letters) && |digits| >= 1 && AllDigits(digits)
    ensures MatchCell(cp + letters + rp + digits) == Some((cp + letters, rp + digits, |cp + letters + rp + digits|))
  {
    var x := cp + letters;
    var y := rp + digits;
    var s := x + y;
    assert cp + letters + rp + digits == s;
    forall m | |cp| <= m < |x| ensures IsUpper(x[m]) { assert x[m] == letters[m - |cp|]; }
    assert x[0] == '$' <==> cp == "$" by { assert cp == "" ==> x[0] == letters[0]; }
    assert y[0] == '$' || IsDigit(y[0]) by { assert rp == "" ==> y[0] == digits[0]; }
    LetterRun(x, y, |cp|);
    DigitRunAtEnd(x + rp, digits);
    assert x + rp + digits == s;
    CellScan(x, y, |cp|, |rp|);
  }

  /** The scan of a cell name x + y, given the runs it meets. */
  lemma CellScan(x: string, y: string, i: nat, r: nat)
    requires i <= 1 && r <= 1 && |x| > i && |y| > r
    requires var s := x + y;
             && (s[0] == '$' <==> i == 1)
             && DigitRun(s, i) == 0 && UpperRun(s, i) == |x| - i
             && (s[|x|] == '$' <==> r == 1)
             && DigitRun(s, |x| + r) == |y| - r
    ensures MatchCell(x + y) == Some((x, y, |x + y|))
  {
    var s := x + y;
    assert MatchCell(s) == LetterColumnCell(s, |x|, |x| - i);
    var k := |x| + r;
    assert (if |x| < |s| && s[|x|] == '$' then |x| + 1 else |x|) == k;
    LetterColumnCellOf(s, |x|, |x| - i, k);
    ConcatParts(x, y);
  }

  lemma LetterColumnCellOf(b: string, j: nat, u: nat, k: nat)
    requires 0 < u && j < |b| && k == (if b[j] == '$' then j + 1 else j)
    requires k < |b| && k + DigitRun(b, k) == |b|
    ensures LetterColumnCell(b, j, u) == Some((b[..j], b[j..|b|], |b|))
  {
  }

  lemma ConcatParts(x: string, y: string)
    ensures (x + y)[..|x|] == x && (x + y)[|x|..|x + y|] == y
  {
  }

  /** A cell name with no ':' and no final newline matches as that cell alone. */
  lemma PlainCell(s: string, x: string, y: string)
    requires |s| > 0 && NonColonRun(s, 0) == |s| && s[|s| - 1] != '\n'
    requires MatchCell(s) == Some((x, y, |s|))
    ensures MatchRange(s) == Some(Groups(None, None, Some(x), Some(y), None, None, None))
  {
    assert SplitName(s).None?;
  }

  lemma NoColonIn(cp: string, letters: string, rp: string, digits: string)
    requires cp == "" || cp == "$"
    requires rp == "" || rp == "$"
    requires AllUpper(letters) && |digits| >= 1 && AllDigits(digits)
    ensures var s := cp + letters + rp + digits; NonColonRun(s, 0) == |s| && s[|s| - 1] != '\n'
  {
    var s := cp + letters + rp + digits;
    forall m | 0 <= m < |s|
      ensures s[m] != ':'
    {
      if m < |cp| + |letters| {
        assert s[m] == (cp + letters)[m];
      } else {
        assert s[m] == (rp + digits)[m - |cp| - |letters|];
      }
    }
    NonColonRunAll(s, 0);
    assert s[|s| - 1] == digits[|digits| - 1];
  }

  /** x = "$"? letters and y = "$"? digits: the letters are one run, with no digit at its
      start, and what follows them tells whether y has its "$". */
  lemma LetterRun(x: string, y: string, i: nat)
    requires i <= 1 && |x| > i && (i == 1 <==> x[0] == '$') && (i == 1 ==> x[0] == '$')
    requires forall m :: i <= m < |x| ==> IsUpper(x[m])
    requires |y| >= 1 && (y[0] == '$' || IsDigit(y[0]))
    ensures DigitRun(x + y, i) == 0 && UpperRun(x + y, i) == |x| - i
    ensures |x| < |x + y| && ((x + y)[|x|] == '$' <==> y[0] == '$')
    ensures ((x + y)[0] == '$') <==> i == 1
  {
    var s := x + y;
    forall m | i <= m < |x| ensures IsUpper(s[m]) { assert s[m] == x[m]; }
    assert !IsUpper(s[|x|]) by { assert s[|x|] == y[0]; }
    UpperRunOf(s, i, |x| - i);
    assert s[i] == x[i];
  }

  lemma DigitRunAtEnd(x: string, digits: string)
    requires AllDigits(digits)
    ensures DigitRun(x + digits, |x|) == |digits|
  {
    var s := x + digits;
    forall m | |x| <= m < |s| ensures IsDigit(s[m]) { assert s[m] == digits[m - |x|]; }
    DigitRunOf(s, |x|, |digits|);
  }

  lemma {:induction false} NonColonRunAll(s: string, i: nat)
    requires i <= |s|
    requires forall m :: i <= m < |s| ==> s[m] != ':'
    ensures NonColonRun(s, i) == |s| - i
    decreases |s| - i
  {
    if i < |s| {
      NonColonRunAll(s, i + 1);
    }
  }
}
