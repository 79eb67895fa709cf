/** A1 cell notation (src/numbers_parser/xref_utils.py): zero-based (row, column) pairs to and
    from strings such as "B3", "$AA$10" and "A1:C4". Columns are written in bijective base 26,
    whose digits are the letters A..Z standing for 1..26 (there is no zero digit). */
module A1Notation {
  import opened Outcomes
  import opened Decimal

  predicate IsUpper(c: char) { 'A' <= c <= 'Z' }

  predicate AllUpper(s: string) { forall k :: 0 <= k < |s| ==> IsUpper(s[k]) }

  /** The letters of the one-based column number `k` (empty for 0). */
  function Letters(k: nat): (s: string)
    ensures AllUpper(s)
    ensures k > 0 ==> |s| >= 1
    decreases k
  {
    if k == 0 then "" else Letters((k - 1) / 26) + [('A' as int + (k - 1) % 26) as char]
  }

  /** The one-based column number that a run of letters stands for. */
  function LettersValue(s: string): nat
    requires AllUpper(s)
  {
    if s == [] then 0 else LettersValue(s[..|s| - 1]) * 26 + (s[|s| - 1] as int - 'A' as int + 1)
  }

  /** Column names are bijective base 26: reading the letters of `k` back gives `k` ... */
  lemma {:induction false} LettersValueOfLetters(k: nat)
    ensures LettersValue(Letters(k)) == k
    decreases k
  {
    if k > 0 {
      var s := Letters(k);
      assert s[..|s| - 1] == Letters((k - 1) / 26);
      LettersValueOfLetters((k - 1) / 26);
    }
  }

  /** ... and every run of letters is the name of exactly one column. */
  lemma {:induction false} LettersOfLettersValue(s: string)
    requires AllUpper(s)
    ensures Letters(LettersValue(s)) == s
  {
    if s != [] {
      var t := s[..|s| - 1];
      LettersOfLettersValue(t);
      var d := s[|s| - 1] as int - 'A' as int;
      DivMod26(LettersValue(t), d);
      assert s == t + [s[|s| - 1]];
    }
  }

  lemma DivMod26(q: nat, d: int)
    requires 0 <= d < 26
    ensures (q * 26 + d) / 26 == q && (q * 26 + d) % 26 == d
  {
  }

  /** The largest one-based column whose name has at most `n` letters: 26 + 26^2 + ... + 26^n. */
  function MaxColumn(n: nat): nat
  {
    if n == 0 then 0 else 26 * MaxColumn(n - 1) + 26
  }

  /** Names of at most `n` letters are exactly the columns up to `MaxColumn(n)`; for three
      letters that is column 18278 ("ZZZ"). */
  lemma {:induction false} LettersLength(k: nat, n: nat)
    ensures |Letters(k)| <= n <==> k <= MaxColumn(n)
    decreases n
  {
    if k > 0 && n > 0 {
      LettersLength((k - 1) / 26, n - 1);
    }
  }

  /** `xl_col_to_name` as a value: an IndexError for a negative column, otherwise the letters
      of the one-based column, after a "$" when the column is absolute. */
  function ColumnName(col: int, colAbs: bool): (r: Result<string>)
    ensures col < 0 <==> r == Err(IndexError)
  {
    if col < 0 then Err(IndexError)
    else Ok((if colAbs then "$" else "") + Letters(col + 1))
  }

  /** `xl_col_to_name`: the loop takes one letter off the right of the column number at a time. */
  method ColToName(col: int, colAbs: bool) returns (r: Result<string>)
    ensures r == ColumnName(col, colAbs)
  {
    if col < 0 {
      return Err(IndexError);
    }
    var c: nat := col + 1;
    var colStr := "";
    while c != 0
      invariant Letters(c) + colStr == Letters(col + 1)
    {
      var remainder := c % 26;
      if remainder == 0 {
        remainder := 26;
      }
      var colLetter := ('A' as int + remainder - 1) as char;
      assert colLetter == ('A' as int + (c - 1) % 26) as char;
      colStr := [colLetter] + colStr;
      c := (c - 1) / 26;
    }
    assert Letters(c) == "" && "" + colStr == colStr;
    return Ok((if colAbs then "$" else "") + colStr);
  }

  /** `xl_rowcol_to_cell`: column name, an optional "$", then the one-based row number. */
  function RowColToCell(row: int, col: int, rowAbs: bool, colAbs: bool): (r: Result<string>)
    ensures (row < 0 || col < 0) <==> r == Err(IndexError)
  {
    if row < 0 || col < 0 then Err(IndexError)
    else Ok((if colAbs then "$" else "") + Letters(col + 1) + (if rowAbs then "$" else "") + DecimalString(row + 1))
  }

  /** `xl_range`: one cell name when both corners name the same cell, else "first:last". */
  function Range(firstRow: int, firstCol: int, lastRow: int, lastCol: int): (r: Result<string>)
    ensures (firstRow < 0 || firstCol < 0 || lastRow < 0 || lastCol < 0) <==> r == Err(IndexError)
    ensures r.Ok? && firstRow == lastRow && firstCol == lastCol ==>
              r == RowColToCell(firstRow, firstCol, false, false)
    ensures r.Ok? && (firstRow != lastRow || firstCol != lastCol) ==>
              r.value == RowColToCell(firstRow, firstCol, false, false).value + ":"
                         + RowColToCell(lastRow, lastCol, false, false).value
  {
    var range1 :- RowColToCell(firstRow, firstCol, false, false);
    var range2 :- RowColToCell(lastRow, lastCol, false, false);
    CellNamesDistinct(firstRow, firstCol, lastRow, lastCol);
    if range1 == range2 then Ok(range1) else Ok(range1 + ":" + range2)
  }

  /** Different cells have different names, so the single-name case of `xl_range` is exactly
      the case of equal corners. */
  lemma CellNamesDistinct(r1: int, c1: int, r2: int, c2: int)
    requires r1 >= 0 && c1 >= 0 && r2 >= 0 && c2 >= 0
    ensures RowColToCell(r1, c1, false, false) == RowColToCell(r2, c2, false, false) <==> r1 == r2 && c1 == c2
  {
    var a, b := Letters(c1 + 1), DecimalString(r1 + 1);
    var c, d := Letters(c2 + 1), DecimalString(r2 + 1);
    PlainName(r1, c1);
    PlainName(r2, c2);
    if a + b == c + d {
      NameDetermines(r1, c1, r2, c2);
    }
  }

  /** The letters and digits of a plain cell name give back its row and column. */
  lemma NameDetermines(r1: nat, c1: nat, r2: nat, c2: nat)
    requires Letters(c1 + 1) + DecimalString(r1 + 1) == Letters(c2 + 1) + DecimalString(r2 + 1)
    ensures r1 == r2 && c1 == c2
  {
    SplitLettersDigits(Letters(c1 + 1), DecimalString(r1 + 1), Letters(c2 + 1), DecimalString(r2 + 1));
    LettersInjective(c1 + 1, c2 + 1);
    DecimalInjective(r1 + 1, r2 + 1);
  }

  lemma LettersInjective(k1: nat, k2: nat)
    requires Letters(k1) == Letters(k2)
    ensures k1 == k2
  {
    LettersValueOfLetters(k1);
    LettersValueOfLetters(k2);
  }

  lemma DecimalInjective(n1: nat, n2: nat)
    requires DecimalString(n1) == DecimalString(n2)
    ensures n1 == n2
  {
    DigitsValueOfDecimalString(n1);
    DigitsValueOfDecimalString(n2);
  }

  /** Without "$" markers a cell name is its column letters then its row number. */
  lemma PlainName(row: nat, col: nat)
    ensures RowColToCell(row, col, false, false) == Ok(Letters(col + 1) + DecimalString(row + 1))
  {
    var a, b := Letters(col + 1), DecimalString(row + 1);
    assert "" + a + "" + b == a + b;
  }

  /** A run of letters followed by a run of digits splits in only one way. */
  lemma SplitLettersDigits(a: string, b: string, c: string, d: string)
    requires AllUpper(a) && AllUpper(c) && |b| >= 1 && |d| >= 1 && AllDigits(b) && AllDigits(d)
    requires a + b == c + d
    ensures a == c && b == d
  {
    assert (a + b)[|a|] == b[0] && (c + d)[|c|] == d[0];
    assert |a| < |c| ==> IsUpper((c + d)[|a|]);
    assert |c| < |a| ==> IsUpper((a + b)[|c|]);
    assert a == (a + b)[..|a|] && c == (c + d)[..|c|];
    assert b == (a + b)[|a|..] && d == (c + d)[|c|..];
  }

  /** The length of the run of characters satisfying `IsUpper` starting at `i`. */
  function UpperRun(s: string, i: nat): (n: nat)
    requires i <= |s|
    ensures i + n <= |s|
    ensures forall k :: i <= k < i + n ==> IsUpper(s[k])
    ensures i + n < |s| ==> !IsUpper(s[i + n])
    decreases |s| - i
  {
    if i < |s| && IsUpper(s[i]) then 1 + UpperRun(s, i + 1) else 0
  }

  /** The length of the run of ASCII digits starting at `i`. */
  function DigitRun(s: string, i: nat): (n: nat)
    requires i <= |s|
    ensures i + n <= |s|
    ensures forall k :: i <= k < i + n ==> IsDigit(s[k])
    ensures i + n < |s| ==> !IsDigit(s[i + n])
    decreases |s| - i
  {
    if i < |s| && IsDigit(s[i]) then 1 + DigitRun(s, i + 1) else 0
  }

  /** The A1 pattern `(\$?)([A-Z]{1,3})(\$?)(\d+)` matched at the start of `s` (the match need
      not reach the end of `s`): the column letters and the row digits, or None. */
  function MatchA1(s: string): (m: Option<(string, string)>)
    ensures m.Some? ==> 1 <= |m.value.0| <= 3 && AllUpper(m.value.0)
    ensures m.Some? ==> |m.value.1| >= 1 && AllDigits(m.value.1)
  {
    var i := if |s| > 0 && s[0] == '$' then 1 else 0;
    var n := UpperRun(s, i);
    if n < 1 || n > 3 then None
    else
      var j := if i + n < |s| && s[i + n] == '$' then i + n + 1 else i + n;
      var d := DigitRun(s, j);
      if d == 0 then None
      else Some((s[i..i + n], s[j..j + d]))
  }

  /** `xl_cell_to_rowcol` as a value: (0, 0) for the empty string, an IndexError when the
      pattern does not match, otherwise the zero-based row and column. */
  function CellToRowColSpec(s: string): (r: Result<(int, int)>)
    ensures s == "" ==> r == Ok((0, 0))
    ensures s != "" && MatchA1(s).None? ==> r == Err(IndexError)
    ensures r.Ok? ==> r.value.0 >= -1 && r.value.1 >= -1
  {
    if s == "" then Ok((0, 0))
    else match MatchA1(s)
      case None => Err(IndexError)
      case Some((letters, digits)) => Ok((DigitsValue(digits) - 1, LettersValue(letters) - 1))
  }

  /** The weight 26^e of the letter `e` places from the right. */
  function Pow26(e: nat): nat
  {
    if e == 0 then 1 else 26 * Pow26(e - 1)
  }

  /** Adding a letter on the left adds its digit times the weight of its place. */
  lemma {:induction false} LettersValuePrepend(c: char, t: string)
    requires IsUpper(c) && AllUpper(t)
    ensures AllUpper([c] + t)
    ensures LettersValue([c] + t) == (c as int - 'A' as int + 1) * Pow26(|t|) + LettersValue(t)
  {
    if t != [] {
      var t' := t[..|t| - 1];
      var s := [c] + t;
      assert s[..|s| - 1] == [c] + t';
      assert s[|s| - 1] == t[|t| - 1];
      LettersValuePrepend(c, t');
      var x, last := c as int - 'A' as int + 1, t[|t| - 1] as int - 'A' as int + 1;
      assert LettersValue(s) == LettersValue([c] + t') * 26 + last;
      assert LettersValue(t) == LettersValue(t') * 26 + last;
      assert Pow26(|t|) == 26 * Pow26(|t'|);
      ShiftPlace(x, Pow26(|t'|), LettersValue(t'), last);
    }
  }

  /** A place shifted left by one letter: (x·p + a)·26 + l = x·(26·p) + (a·26 + l). */
  lemma ShiftPlace(x: int, p: int, a: int, l: int)
    ensures (x * p + a) * 26 + l == x * (26 * p) + (a * 26 + l)
  {
  }

  /** `xl_cell_to_rowcol`: matches the pattern, then sums letter digits times powers of 26 from
      the right. */
  method CellToRowCol(s: string) returns (r: Result<(int, int)>)
    ensures r == CellToRowColSpec(s)
  {
    if s == "" {
      return Ok((0, 0));
    }
    var m := MatchA1(s);
    if m.None? {
      return Err(IndexError);
    }
    var (colStr, rowStr) := m.value;
    SpecOfMatch(s, colStr, rowStr);
    var col := 0;
    var expn := 0;
    while expn < |colStr|
      invariant expn <= |colStr|
      invariant col == LettersValue(colStr[|colStr| - expn..])
    {
      var ch := colStr[|colStr| - 1 - expn];
      LettersValueSuffix(colStr, expn);
      col := col + (ch as int - 'A' as int + 1) * Pow26(expn);
      expn := expn + 1;
    }
    assert colStr[|colStr| - expn..] == colStr;
    var row := DigitsValue(rowStr) - 1;
    col := col - 1;
    return Ok((row, col));
  }

  /** One more letter from the right: its digit times the weight of its place. */
  lemma LettersValueSuffix(t: string, e: nat)
    requires AllUpper(t) && e < |t|
    ensures AllUpper(t[|t| - (e + 1)..]) && AllUpper(t[|t| - e..])
    ensures LettersValue(t[|t| - (e + 1)..])
            == (t[|t| - 1 - e] as int - 'A' as int + 1) * Pow26(e) + LettersValue(t[|t| - e..])
  {
    var ch := t[|t| - 1 - e];
    assert t[|t| - (e + 1)..] == [ch] + t[|t| - e..];
    LettersValuePrepend(ch, t[|t| - e..]);
  }

  /** What `xl_cell_to_rowcol` computes once the pattern has matched. */
  lemma SpecOfMatch(s: string, letters: string, digits: string)
    requires s != "" && MatchA1(s) == Some((letters, digits))
    ensures AllUpper(letters) && AllDigits(digits)
    ensures CellToRowColSpec(s) == Ok((DigitsValue(digits) - 1, LettersValue(letters) - 1))
  {
  }

  /** The pattern finds the letters and digits of any string laid out as "$"? letters "$"? digits. */
  lemma MatchA1Of(cp: string, letters: string, rp: string, digits: string)
    requires cp == "" || cp == "$"
    requires rp == "" || rp == "$"
    requires 1 <= |letters| <= 3 && AllUpper(letters)
    requires |digits| >= 1 && AllDigits(digits)
    ensures MatchA1(cp + letters + rp + digits) == Some((letters, digits))
  {
    var s := cp + letters + rp + digits;
    var i, n := |cp|, |letters|;
    var j := i + n + |rp|;
    assert s[i..i + n] == letters;
    assert s[j..] == digits;
    assert s[0] == if cp == "$" then '$' else letters[0];
    assert s[i + n] == if rp == "$" then '$' else digits[0];
    forall k | i <= k < i + n ensures IsUpper(s[k]) {
      assert s[k] == s[i..i + n][k - i];
    }
    forall k | j <= k < |s| ensures IsDigit(s[k]) {
      assert s[k] == s[j..][k - j];
    }
    MatchAt(s, i, n, j);
  }

  /** The pattern reads the letter run at `i` and the digit run at `j` when the string has the
      shape it expects there. */
  lemma MatchAt(s: string, i: nat, n: nat, j: nat)
    requires i <= 1 && i < |s| && (s[0] == '$' <==> i == 1)
    requires 1 <= n <= 3 && i + n < |s|
    requires forall k :: i <= k < i + n ==> IsUpper(s[k])
    requires !IsUpper(s[i + n])
    requires j == if s[i + n] == '$' then i + n + 1 else i + n
    requires j < |s| && forall k :: j <= k < |s| ==> IsDigit(s[k])
    ensures MatchA1(s) == Some((s[i..i + n], s[j..]))
  {
    UpperRunOf(s, i, n);
    DigitRunOf(s, j, |s| - j);
    assert (if |s| > 0 && s[0] == '$' then 1 else 0) == i;
    assert (if i + n < |s| && s[i + n] == '$' then i + n + 1 else i + n) == j;
    assert s[j..j + (|s| - j)] == s[j..];
  }

  /** Reading back a written cell name gives the cell, for names of up to three column
      letters, with or without "$" markers. */
  lemma CellToRowColInvertsRowColToCell(row: int, col: int, rowAbs: bool, colAbs: bool)
    requires row >= 0 && col >= 0
    requires |Letters(col + 1)| <= 3
    ensures CellToRowColSpec(RowColToCell(row, col, rowAbs, colAbs).value) == Ok((row, col))
  {
    var cp := if colAbs then "$" else "";
    var rp := if rowAbs then "$" else "";
    NameLayout(row, col, cp, rp);
    DigitsValueOfDecimalString(row + 1);
    LettersValueOfLetters(col + 1);
    NameReadBack(cp, Letters(col + 1), rp, DecimalString(row + 1), row, col);
  }

  lemma NameLayout(row: nat, col: nat, cp: string, rp: string)
    ensures RowColToCell(row, col, rp == "$", cp == "$").Ok?
    ensures (cp == "" || cp == "$") && (rp == "" || rp == "$") ==>
      RowColToCell(row, col, rp == "$", cp == "$").value == cp + Letters(col + 1) + rp + DecimalString(row + 1)
  {
  }

  /** A name laid out as "$"? letters "$"? digits reads back as the row and column the letters
      and digits stand for. */
  lemma NameReadBack(cp: string, letters: string, rp: string, digits: string, row: int, col: int)
    requires cp == "" || cp == "$"
    requires rp == "" || rp == "$"
    requires 1 <= |letters| <= 3 && AllUpper(letters) && LettersValue(letters) == col + 1
    requires |digits| >= 1 && AllDigits(digits) && DigitsValue(digits) == row + 1
    ensures CellToRowColSpec(cp + letters + rp + digits) == Ok((row, col))
  {
    MatchA1Of(cp, letters, rp, digits);
    ReadBack(cp + letters + rp + digits, letters, digits, row, col);
  }

  lemma ReadBack(s: string, letters: string, digits: string, row: int, col: int)
    requires MatchA1(s) == Some((letters, digits))
    requires AllUpper(letters) && LettersValue(letters) == col + 1
    requires AllDigits(digits) && DigitsValue(digits) == row + 1
    ensures CellToRowColSpec(s) == Ok((row, col))
  {
  }

  lemma {:induction false} UpperRunOf(s: string, i: nat, n: nat)
    requires i + n <= |s|
    requires forall k :: i <= k < i + n ==> IsUpper(s[k])
    requires i + n < |s| ==> !IsUpper(s[i + n])
    ensures UpperRun(s, i) == n
    decreases n
  {
    if n > 0 {
      UpperRunOf(s, i + 1, n - 1);
    }
  }

  lemma {:induction false} DigitRunOf(s: string, i: nat, n: nat)
    requires i + n <= |s|
    requires forall k :: i <= k < i + n ==> IsDigit(s[k])
    requires i + n < |s| ==> !IsDigit(s[i + n])
    ensures DigitRun(s, i) == n
    decreases n
  {
    if n > 0 {
      DigitRunOf(s, i + 1, n - 1);
    }
  }

  lemma ColumnNameExamples()
    ensures ColumnName(0, false) == Ok("A")
    ensures ColumnName(25, false) == Ok("Z")
    ensures ColumnName(26, false) == Ok("AA")
    ensures ColumnName(27, true) == Ok("$AB")
  {
    assert Letters(1) == "A";
    assert Letters(26) == "Z";
    assert (27 - 1) / 26 == 1 && (27 - 1) % 26 == 0;
    assert Letters(27) == Letters(1) + "A" == "AA";
    assert (28 - 1) / 26 == 1 && (28 - 1) % 26 == 1;
    assert Letters(28) == Letters(1) + "B" == "AB";
    assert "" + Letters(27) == "AA";
    assert "$" + Letters(28) == "$AB";
  }
}
