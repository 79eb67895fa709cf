/** Custom-format helpers shared by src/numbers_parser/cell.py and
    src/numbers_parser/cell_storage.py: quote expansion and date-format scanning. */
module CellFormat {
  import opened Outcomes
  import Text

  // ---- Quoted text in custom formats ----

  /** What `expand_quotes` makes of `s`: single quotes delimit literal text and are dropped, a
      doubled quote stands for one quote, and a lone quote as the last character stops the scan. */
  function Expanded(s: string): string
  {
    if s == [] then ""
    else if s[0] != '\'' then [s[0]] + Expanded(s[1..])
    else if |s| == 1 then ""
    else if s[1] == '\'' then "'" + Expanded(s[2..])
    else Expanded(s[1..])
  }

  /** `s` with every quote doubled: how a literal quote is written inside a custom format. */
  function Doubled(s: string): string
  {
    if s == [] then "" else (if s[0] == '\'' then "''" else [s[0]]) + Doubled(s[1..])
  }

  /** `expand_quotes` / `_expand_quotes`: the index loop over the characters of `value`. */
  method ExpandQuotes(value: string) returns (formatted: string)
    ensures formatted == Expanded(value)
  {
    var index := 0;
    var inString := false;
    formatted := "";
    while index < |value|
      invariant index <= |value|
      invariant formatted + Expanded(value[index..]) == Expanded(value)
    {
      var current := value[index];
      if current == '\'' {
        if index == |value| - 1 {
          break;
        } else if value[index + 1] == '\'' {
          formatted := formatted + "'";
          index := index + 2;
        } else if inString {
          inString := false;
          index := index + 1;
        } else {
          inString := true;
          index := index + 1;
        }
      } else {
        formatted := formatted + [current];
        index := index + 1;
      }
    }
    assert Expanded(value[index..]) == "";
  }

  /** Text without quotes is copied unchanged. */
  lemma {:induction false} ExpandedPlain(s: string)
    requires '\'' !in s
    ensures Expanded(s) == s
  {
    if s != [] {
      assert s[0] in s;
      assert forall c :: c in s[1..] ==> c in s;
      ExpandedPlain(s[1..]);
    }
  }

  /** Expanding text whose quotes were doubled gives the text back, followed by the expansion
      of whatever comes after it. */
  lemma {:induction false} ExpandedDoubledThen(s: string, t: string)
    ensures Expanded(Doubled(s) + t) == s + Expanded(t)
  {
    if s != [] {
      ExpandedDoubledThen(s[1..], t);
      var rest := Doubled(s[1..]) + t;
      var d := Doubled(s) + t;
      if s[0] == '\'' {
        Text.AppendAssoc("''", Doubled(s[1..]), t);
        assert d[2..] == rest;
        assert Expanded(d) == "'" + Expanded(rest);
      } else {
        Text.AppendAssoc([s[0]], Doubled(s[1..]), t);
        assert d[1..] == rest;
        assert Expanded(d) == [s[0]] + Expanded(rest);
      }
      assert s == [s[0]] + s[1..];
      Text.AppendAssoc([s[0]], s[1..], Expanded(t));
    } else {
      assert Doubled(s) + t == t;
    }
  }

  /** Doubling every quote is undone by `expand_quotes`: a literal round trip. */
  lemma ExpandedDoubled(s: string)
    ensures Expanded(Doubled(s)) == s
  {
    ExpandedDoubledThen(s, "");
    assert Doubled(s) + "" == Doubled(s);
  }

  /** A literal in quote delimiters comes back without them, unless it is empty or starts with a
      quote: the opening delimiter then reads as part of a doubled quote. */
  lemma ExpandedDelimited(s: string)
    requires s != [] && s[0] != '\''
    ensures Expanded("'" + Doubled(s) + "'") == s
    ensures Expanded("''") == "'"
  {
    var d := "'" + Doubled(s) + "'";
    assert Doubled(s)[0] == s[0];
    assert d[1] != '\'';
    assert d[1..] == Doubled(s) + "'";
    ExpandedDoubledThen(s, "'");
    assert s + "" == s;
  }

  // ---- Custom date formats ----

  /** A letter, as `str.isalpha` sees the ASCII range. */
  predicate IsAlpha(c: char) { 'a' <= c <= 'z' || 'A' <= c <= 'Z' }

  /** Two pieces of output appended; the first error raised wins. */
  function Then(a: Result<string>, b: Result<string>): Result<string>
  {
    if a.Err? then a else if b.Err? then b else Ok(a.value + b.value)
  }

  /** The text rendered for a pending field code, if there is one. */
  function Flush(field: Option<string>, render: string -> Result<string>): Result<string>
  {
    if field.Some? then render(field.value) else Ok("")
  }

  /** What `decode_date_format` produces from the rest `s` of a format, inside a quoted literal
      or not, with the letters of a field code gathered so far. `render` turns a field code into
      text for the date being formatted (the strftime table is not part of this model); it
      raises UnsupportedError for an unknown code in cell_storage.py and warns and yields "" in
      cell.py. */
  function DateScan(s: string, inString: bool, field: Option<string>, render: string -> Result<string>): Result<string>
  {
    if s == [] || (s[0] == '\'' && |s| == 1) then Flush(field, render)
    else if s[0] == '\'' then
      if s[1] == '\'' then Then(Ok("'"), DateScan(s[2..], inString, field, render))
      else if inString then DateScan(s[1..], false, field, render)
      else Then(Flush(field, render), DateScan(s[1..], true, None, render))
    else if inString then Then(Ok([s[0]]), DateScan(s[1..], true, field, render))
    else if !IsAlpha(s[0]) then Then(Flush(field, render), Then(Ok([s[0]]), DateScan(s[1..], false, None, render)))
    else if field.Some? then DateScan(s[1..], false, Some(field.value + [s[0]]), render)
    else DateScan(s[1..], false, Some([s[0]]), render)
  }

  lemma ThenAssoc(a: Result<string>, b: Result<string>, c: Result<string>)
    ensures Then(Then(a, b), c) == Then(a, Then(b, c))
  {
    if a.Ok? && b.Ok? && c.Ok? {
      assert (a.value + b.value) + c.value == a.value + (b.value + c.value);
    }
  }

  /** `decode_date_format`: the loop over the characters of `format`, with the flags `in_string`
      and `in_field` and the field code gathered so far. */
  method DecodeDateFormat(format: string, render: string -> Result<string>) returns (r: Result<string>)
    ensures r == DateScan(format, false, None, render)
  {
    var index := 0;
    var inString := false;
    var inField := false;
    var field := "";
    var result := "";
    assert format[0..] == format;
    ThenEmpty(DateScan(format, false, None, render));
    while index < |format|
      invariant index <= |format|
      invariant inString ==> !inField
      invariant Then(Ok(result), DateScan(format[index..], inString, if inField then Some(field) else None, render))
                == DateScan(format, false, None, render)
    {
      ghost var pending: Option<string> := if inField then Some(field) else None;
      ghost var rest := format[index..];
      assert rest[1..] == format[index + 1..];
      var current := format[index];
      if current == '\'' {
        if index == |format| - 1 {
          break;
        } else if format[index + 1] == '\'' {
          assert rest[2..] == format[index + 2..];
          ThenAssoc(Ok(result), Ok("'"), DateScan(rest[2..], inString, pending, render));
          result := result + "'";
          index := index + 2;
        } else if inString {
          inString := false;
          index := index + 1;
        } else {
          inString := true;
          if inField {
            var text := render(field);
            if text.Err? {
              return text.PropagateFailure();
            }
            ThenAssoc(Ok(result), text, DateScan(rest[1..], true, None, render));
            result := result + text.value;
            inField := false;
          } else {
            ThenEmpty(DateScan(rest[1..], true, None, render));
          }
          index := index + 1;
        }
      } else if inString {
        ThenAssoc(Ok(result), Ok([current]), DateScan(rest[1..], true, pending, render));
        result := result + [current];
        index := index + 1;
      } else if !IsAlpha(current) {
        var tail := Then(Ok([current]), DateScan(rest[1..], false, None, render));
        if inField {
          var text := render(field);
          if text.Err? {
            return text.PropagateFailure();
          }
          ThenAssoc(Ok(result), text, tail);
          result := result + text.value;
          inField := false;
        } else {
          ThenEmpty(tail);
        }
        ThenAssoc(Ok(result), Ok([current]), DateScan(rest[1..], false, None, render));
        result := result + [current];
        index := index + 1;
      } else if inField {
        field := field + [current];
        index := index + 1;
      } else {
        inField := true;
        field := [current];
        index := index + 1;
      }
    }
    ghost var rest := format[index..];
    assert rest == [] || (rest[0] == '\'' && |rest| == 1);
    if inField {
      var text := render(field);
      if text.Err? {
        return text.PropagateFailure();
      }
      result := result + text.value;
    } else {
      ThenEmpty(Ok(result));
    }
    return Ok(result);
  }

  /** A format without quotes read as the format's own grammar: each maximal run of letters is a
      field code, every other character a literal. */
  datatype Piece = Literal(c: char) | FieldCode(code: string)

  /** The number of letters `s` starts with. */
  function AlphaRun(s: string): (n: nat)
    ensures n <= |s|
    ensures forall k :: 0 <= k < n ==> IsAlpha(s[k])
    ensures n < |s| ==> !IsAlpha(s[n])
  {
    if s == [] || !IsAlpha(s[0]) then 0 else 1 + AlphaRun(s[1..])
  }

  function Pieces(s: string): seq<Piece>
    decreases |s|
  {
    if s == [] then []
    else if !IsAlpha(s[0]) then [Literal(s[0])] + Pieces(s[1..])
    else [FieldCode(s[..AlphaRun(s)])] + Pieces(s[AlphaRun(s)..])
  }

  /** The pieces written out in order, field codes through `render`. */
  function Render(ps: seq<Piece>, render: string -> Result<string>): Result<string>
  {
    if ps == [] then Ok("")
    else Then(if ps[0].Literal? then Ok([ps[0].c]) else render(ps[0].code), Render(ps[1..], render))
  }

  /** The field codes of a format, in order. */
  function FieldCodes(ps: seq<Piece>): seq<string>
  {
    if ps == [] then [] else (if ps[0].FieldCode? then [ps[0].code] else []) + FieldCodes(ps[1..])
  }

  lemma {:induction false} AlphaRunAfter(f: string, s: string)
    requires forall k :: 0 <= k < |f| ==> IsAlpha(f[k])
    ensures AlphaRun(f + s) == |f| + AlphaRun(s)
  {
    if f != [] {
      assert (f + s)[1..] == f[1..] + s;
      AlphaRunAfter(f[1..], s);
    } else {
      assert f + s == s;
    }
  }

  lemma ThenEmpty(a: Result<string>)
    ensures Then(a, Ok("")) == a && Then(Ok(""), a) == a
  {
    if a.Ok? {
      assert a.value + "" == a.value && "" + a.value == a.value;
    }
  }

  /** One step of the scan over a character that is neither a quote nor a letter. */
  lemma DateScanLiteral(s: string, f: Option<string>, render: string -> Result<string>)
    requires s != [] && s[0] != '\'' && !IsAlpha(s[0])
    ensures DateScan(s, false, f, render) == Then(Flush(f, render), Then(Ok([s[0]]), DateScan(s[1..], false, None, render)))
  {
  }

  /** One step of the scan over a letter. */
  lemma DateScanLetter(s: string, f: Option<string>, render: string -> Result<string>)
    requires s != [] && IsAlpha(s[0])
    ensures DateScan(s, false, f, render) == DateScan(s[1..], false, Some(if f.Some? then f.value + [s[0]] else [s[0]]), render)
  {
  }

  /** The pieces of a format that starts with the letters `f` and then a non-letter. */
  lemma PiecesAfterRun(f: string, s: string)
    requires f != [] && forall k :: 0 <= k < |f| ==> IsAlpha(f[k])
    requires s == [] || !IsAlpha(s[0])
    ensures Pieces(f + s) == [FieldCode(f)] + Pieces(s)
  {
    var w := f + s;
    AlphaRunAfter(f, s);
    assert AlphaRun(w) == |f|;
    assert w[..|f|] == f && w[|f|..] == s;
  }

  /** Without quotes the scan renders exactly the pieces of the format, in order: letters
      gathered into a pending field code `f` continue with the letters that follow. */
  lemma {:induction false} DateScanPending(s: string, f: Option<string>, render: string -> Result<string>)
    requires '\'' !in s
    requires PendingRun(f)
    ensures DateScan(s, false, f, render) == Render(Pieces(if f.Some? then f.value + s else s), render)
    decreases |s|
  {
    if s == [] {
      PendingEnd(f, render);
      if f.Some? {
        assert f.value + s == f.value;
      }
    } else {
      assert s[0] in s;
      assert forall c :: c in s[1..] ==> c in s;
      if !IsAlpha(s[0]) {
        DateScanPending(s[1..], None, render);
        PendingLiteral(s, f, render);
      } else {
        var g := if f.Some? then f.value + [s[0]] else [s[0]];
        assert PendingRun(Some(g));
        DateScanPending(s[1..], Some(g), render);
        PendingLetter(s, f, render);
      }
    }
  }

  /** A pending field code is a non-empty run of letters. */
  predicate PendingRun(f: Option<string>)
  {
    f.Some? ==> f.value != [] && forall k :: 0 <= k < |f.value| ==> IsAlpha(f.value[k])
  }

  lemma RenderCons(p: Piece, ps: seq<Piece>, render: string -> Result<string>)
    ensures Render([p] + ps, render) == Then(if p.Literal? then Ok([p.c]) else render(p.code), Render(ps, render))
  {
    assert ([p] + ps)[1..] == ps;
  }

  /** The end of the format flushes the pending field code. */
  lemma PendingEnd(f: Option<string>, render: string -> Result<string>)
    requires PendingRun(f)
    ensures DateScan([], false, f, render) == Render(Pieces(if f.Some? then f.value else []), render)
  {
    if f.Some? {
      PiecesAfterRun(f.value, []);
      assert f.value + [] == f.value;
      RenderCons(FieldCode(f.value), [], render);
      ThenEmpty(render(f.value));
    }
  }

  /** A character that is neither a quote nor a letter ends the pending field code. */
  lemma PendingLiteral(s: string, f: Option<string>, render: string -> Result<string>)
    requires s != [] && s[0] != '\'' && !IsAlpha(s[0])
    requires PendingRun(f)
    requires DateScan(s[1..], false, None, render) == Render(Pieces(s[1..]), render)
    ensures DateScan(s, false, f, render) == Render(Pieces(if f.Some? then f.value + s else s), render)
  {
    DateScanLiteral(s, f, render);
    assert Pieces(s) == [Literal(s[0])] + Pieces(s[1..]);
    RenderCons(Literal(s[0]), Pieces(s[1..]), render);
    if f.Some? {
      PiecesAfterRun(f.value, s);
      RenderCons(FieldCode(f.value), Pieces(s), render);
    } else {
      ThenEmpty(Then(Ok([s[0]]), Render(Pieces(s[1..]), render)));
    }
  }

  /** A letter joins the pending field code. */
  lemma PendingLetter(s: string, f: Option<string>, render: string -> Result<string>)
    requires s != [] && IsAlpha(s[0])
    requires var g := if f.Some? then f.value + [s[0]] else [s[0]];
      DateScan(s[1..], false, Some(g), render) == Render(Pieces(g + s[1..]), render)
    ensures DateScan(s, false, f, render) == Render(Pieces(if f.Some? then f.value + s else s), render)
  {
    DateScanLetter(s, f, render);
    var g := if f.Some? then f.value + [s[0]] else [s[0]];
    if f.Some? {
      assert g + s[1..] == f.value + s;
    } else {
      assert g + s[1..] == s;
    }
  }

  /** For a format without quotes, `decode_date_format` renders each maximal run of letters as one
      field code and copies every other character. */
  lemma DateScanUnquoted(s: string, render: string -> Result<string>)
    requires '\'' !in s
    ensures DateScan(s, false, None, render) == Render(Pieces(s), render)
  {
    DateScanPending(s, None, render);
  }

  lemma DateScanExamples(render: string -> Result<string>)
    requires render("yyyy") == Ok("2024") && render("MM") == Ok("03")
    ensures DateScan("yyyy-MM", false, None, render) == Ok("2024-03")
  {
    ScanYears(render);
    ScanMonth(render);
    DateScanLiteral("-MM", Some("yyyy"), render);
    assert "-MM"[1..] == "MM";
    assert "-" + "03" == "-03" && "2024" + "-03" == "2024-03";
  }

  /** The four letters of "yyyy" gather into one pending field code. */
  lemma ScanYears(render: string -> Result<string>)
    ensures DateScan("yyyy-MM", false, None, render) == DateScan("-MM", false, Some("yyyy"), render)
  {
    var s := "yyyy-MM";
    DateScanLetter(s, None, render);
    DateScanLetter(s[1..], Some("y"), render);
    DateScanLetter(s[2..], Some("yy"), render);
    DateScanLetter(s[3..], Some("yyy"), render);
    assert s[1..] == "yyy-MM" && s[2..] == "yy-MM" && s[3..] == "y-MM" && s[4..] == "-MM";
    assert "y" + ['y'] == "yy" && "yy" + ['y'] == "yyy" && "yyy" + ['y'] == "yyyy";
  }

  /** "MM" at the end of a format renders as its field code. */
  lemma ScanMonth(render: string -> Result<string>)
    requires render("MM") == Ok("03")
    ensures DateScan("MM", false, None, render) == Ok("03")
  {
    assert DateScan("", false, Some("MM"), render) == Ok("03");
    DateScanLetter("M", Some("M"), render);
    assert "M"[1..] == "" && "M" + ['M'] == "MM";
    DateScanLetter("MM", None, render);
    assert "MM"[1..] == "M";
  }

  /** Letters inside quotes are copied, not read as field codes. */
  lemma DateScanQuotedExample(render: string -> Result<string>)
    requires render("MM") == Ok("03")
    ensures DateScan("'at' MM", false, None, render) == Ok("at 03")
  {
    ScanSpaceMonth(render);
    ScanQuotedAt(render);
  }

  lemma ScanSpaceMonth(render: string -> Result<string>)
    requires render("MM") == Ok("03")
    ensures DateScan(" MM", false, None, render) == Ok(" 03")
  {
    ScanMonth(render);
    DateScanLiteral(" MM", None, render);
    assert " MM"[1..] == "MM";
    assert " " + "03" == " 03" && "" + " 03" == " 03";
  }

  /** The quoted "at" is copied and the scan goes on after the closing quote. */
  lemma ScanQuotedAt(render: string -> Result<string>)
    requires DateScan(" MM", false, None, render) == Ok(" 03")
    ensures DateScan("'at' MM", false, None, render) == Ok("at 03")
  {
    var t := "'at' MM";
    assert t[1..] == "at' MM" && t[2..] == "t' MM" && t[3..] == "' MM" && t[4..] == " MM";
    assert DateScan(t[3..], true, None, render) == Ok(" 03");
    assert "t" + " 03" == "t 03" && "a" + "t 03" == "at 03";
    assert DateScan(t[2..], true, None, render) == Ok("t 03");
    assert DateScan(t[1..], true, None, render) == Ok("at 03");
    assert "" + "at 03" == "at 03";
  }

}
