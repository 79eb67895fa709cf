/** The formula tokenizer (`Tokenizer` and `Token` in src/numbers_parser/tokenizer.py): a
    character-driven state machine that splits a formula such as `=SUM(A1,-2)%` into operand,
    function, parenthesis, array, separator and operator tokens. Characters that belong to no
    special token collect in a pending operand, which is saved whenever a token-ending
    character arrives. */
module Tokenizer {
  import opened Outcomes
  import Text

  /** `Token.type`. */
  datatype TokenType = Literal | Operand | Func | Array | Paren | Sep | OpPre | OpIn | OpPost

  /** `Token.subtype`; `Plain` is the empty subtype. */
  datatype Subtype = Plain | TextValue | Number | Logical | ErrorValue | Range | Open | Close | Arg | Row

  /** A `Token`: its text, type and subtype, and the argument count the RPN conversion fills in
      for functions (zero when the token is made). */
  datatype Token = Token(value: string, kind: TokenType, subtype: Subtype, numArgs: nat)

  function Min(a: int, b: int): int { if a <= b then a else b }

  /** `make_operand`. `isFloat` is whether Python's `float` accepts the text. */
  function MakeOperand(value: string, isFloat: string -> bool): (t: Token)
    ensures t.kind == Operand && t.value == value && t.numArgs == 0
    ensures t.subtype in {TextValue, ErrorValue, Logical, Number, Range}
  {
    var subtype :=
      if |value| > 0 && value[0] == '"' then TextValue
      else if |value| > 0 && value[0] == '#' then ErrorValue
      else if value == "TRUE" || value == "FALSE" then Logical
      else if isFloat(value) then Number
      else Range;
    Token(value, Operand, subtype, 0)
  }

  /** Whether a '(' follows at least one character with no newline before it, starting the
      search at `i`. */
  function ParenAfter(v: string, i: nat): bool
    decreases |v| - i
  {
    if i >= |v| || v[i] == '\n' then false
    else if v[i] == '(' then true
    else ParenAfter(v, i + 1)
  }

  /** `re.match(".+\(|\)", v)`: some text without a newline and then '(', or a leading ')'. */
  predicate FuncPattern(v: string)
  {
    |v| >= 1 && ((v[0] != '\n' && ParenAfter(v, 1)) || v[0] == ')')
  }

  /** `make_subexp`. The tests `value in "{}"`, `value in "()"` and `value in ")}"` are
      substring tests, written out as the non-empty substrings. */
  function MakeSubexp(value: string, func: bool): (r: Result<Token>)
    ensures value == [] ==> r == Err(IndexError)
    ensures value != [] ==> (r.Ok? <==> value[|value| - 1] in "{}()" && (func ==> FuncPattern(value)))
    ensures r.Err? && value != [] ==> r.error == TokenizerError
    ensures r.Ok? ==> r.value.value == value && r.value.numArgs == 0
    ensures r.Ok? ==> r.value.kind in {Func, Array, Paren} && r.value.subtype in {Open, Close}
  {
    if value == [] then Err(IndexError)
    else if value[|value| - 1] !in "{}()" then Err(TokenizerError)
    else if func && !FuncPattern(value) then Err(TokenizerError)
    else
      var kind :=
        if func then Func
        else if value in ["{", "}", "{}"] then Array
        else if value in ["(", ")", "()"] then Paren
        else Func;
      var subtype := if value in [")", "}", ")}"] then Close else Open;
      Ok(Token(value, kind, subtype, 0))
  }

  /** The closing token of an opener: "}" for an array and ")" otherwise, of the same type. */
  function CloserOf(t: Token): Token
  {
    Token(if t.kind == Array then "}" else ")", t.kind, Close, 0)
  }

  predicate IsOpener(t: Token)
  {
    t.kind in {Func, Array, Paren} && t.subtype == Open
  }

  /** `get_closer`: only an opening function, array or parenthesis has a closer. */
  function GetCloser(t: Token): (r: Result<Token>)
    ensures r.Ok? <==> IsOpener(t)
    ensures r.Ok? ==> r.value == CloserOf(t)
    ensures r.Err? ==> r.error == TokenizerError
  {
    if t.kind !in {Func, Array, Paren} then Err(TokenizerError)
    else if t.subtype != Open then Err(TokenizerError)
    else
      assert FuncPattern(")");
      MakeSubexp(if t.kind == Array then "}" else ")", t.kind == Func)
  }

  /** `make_separator`: "," separates arguments, ";" rows. */
  function MakeSeparator(value: string): (r: Result<Token>)
    ensures r.Ok? <==> value == "," || value == ";"
    ensures r.Ok? ==> r.value == Token(value, Sep, if value == "," then Arg else Row, 0)
    ensures r.Err? ==> r.error == TokenizerError
  {
    if value != "," && value != ";" then Err(TokenizerError)
    else Ok(Token(value, Sep, if value == "," then Arg else Row, 0))
  }

  /** `ERROR_CODES` */
  const ErrorCodes: seq<string> := ["#NULL!", "#DIV/0!", "#VALUE!", "#REF!", "#NAME?", "#NUM!", "#N/A"]

  /** `TOKEN_ENDERS` */
  const TokenEnders: set<char> := {',', ';', '}', ')', '+', '-', '*', '/', '^', '&', '=', '>', '<', '%', '×', '÷', '≥', '≤', '≠'}

  /** The characters `parse_operator` always reads as infix operators. */
  const InfixChars: set<char> := {'*', '/', '^', '&', '=', '>', '<', '×', '÷', '≥', '≤', '≠'}

  /** The characters `parse_operator` is dispatched on. */
  const OperatorChars: set<char> := {'+', '-', '*', '/', '^', '&', '=', '>', '<', '%', '×', '÷', '≥', '≤', '≠'}

  /** The characters that have a consumer in `parse`'s dispatcher. */
  predicate IsDispatched(c: char)
  {
    c in {'"', '\'', '[', '#', '{', '(', ')', '}', ';', ','} || c in OperatorChars
  }

  /** The state of a parse: `items`, `token_stack` and the pending operand text, which is
      `"".join(self.token)` (every piece appended to the list is non-empty, so the list is
      empty exactly when its text is). */
  datatype Scan = Scan(items: seq<Token>, stack: seq<Token>, token: string)

  /** `save_token` */
  function Saved(sc: Scan, isFloat: string -> bool): (r: Scan)
    ensures r.token == "" && r.stack == sc.stack
  {
    if sc.token != "" then Scan(sc.items + [MakeOperand(sc.token, isFloat)], sc.stack, "")
    else sc
  }

  /** Where a string that opens before `i` ends: a doubled quote stands for one quote, and the
      first quote not followed by another closes the string. None when the formula ends first.
      This is the match of `STRING_REGEXES`. */
  function QuoteEnd(f: string, q: char, i: nat): (r: Option<nat>)
    ensures r.Some? ==> i < r.value <= |f| && f[r.value - 1] == q
    decreases |f| - i
  {
    if i >= |f| then None
    else if f[i] != q then QuoteEnd(f, q, i + 1)
    else if i + 1 < |f| && f[i + 1] == q then QuoteEnd(f, q, i + 2)
    else Some(i + 1)
  }

  /** `parse_string` */
  function ConsumeString(f: string, o: nat, sc: Scan, isFloat: string -> bool): (r: Result<(Scan, nat)>)
    requires o < |f|
    ensures r.Ok? ==> r.value.1 >= 1
    ensures r.Err? ==> r.error == TokenizerError
    ensures sc.token != "" ==> r.Err?
  {
    if sc.token != "" then Err(TokenizerError)
    else if f[o] != '"' && f[o] != '\'' then Err(TokenizerError)
    else
      match QuoteEnd(f, f[o], o + 1)
      case None => Err(TokenizerError)
      case Some(e) =>
        var m := f[o..e];
        if f[o] == '"' then Ok((Scan(sc.items + [MakeOperand(m, isFloat)], sc.stack, sc.token), e - o))
        else Ok((Scan(sc.items, sc.stack, sc.token + m), e - o))
  }

  /** `str.find(c, i)`: the first index from `i` holding `c`, or -1. */
  function FindFrom(f: string, c: char, i: nat): (r: int)
    ensures r == -1 || (i <= r < |f| && f[r] == c)
    decreases |f| - i
  {
    if i >= |f| then -1
    else if f[i] == c then i
    else FindFrom(f, c, i + 1)
  }

  /** `parse_brackets`: the text up to and including the next ']' joins the pending operand. */
  function ConsumeBrackets(f: string, o: nat, sc: Scan): (r: Result<(Scan, nat)>)
    requires o < |f|
    ensures r.Ok? ==> r.value.1 >= 1
    ensures r.Err? ==> r.error == TokenizerError
  {
    if f[o] != '[' then Err(TokenizerError)
    else
      var right := FindFrom(f, ']', o) + 1;
      if right == 0 then Err(TokenizerError)
      else Ok((Scan(sc.items, sc.stack, sc.token + f[o..right]), right - o))
  }

  /** The first of `codes` that `s` starts with. */
  function FirstCode(s: string, codes: seq<string>): (r: Option<string>)
    ensures r.Some? ==> r.value in codes && |r.value| <= |s| && s[..|r.value|] == r.value
  {
    if codes == [] then None
    else if |codes[0]| <= |s| && s[..|codes[0]|] == codes[0] then Some(codes[0])
    else FirstCode(s, codes[1..])
  }

  /** `parse_error` */
  function ConsumeError(f: string, o: nat, sc: Scan, isFloat: string -> bool): (r: Result<(Scan, nat)>)
    requires o < |f|
    ensures r.Ok? ==> r.value.1 >= 1
    ensures r.Err? ==> r.error == TokenizerError
  {
    if sc.token != "" then Err(TokenizerError)
    else if f[o] != '#' then Err(TokenizerError)
    else
      match FirstCode(f[o..], ErrorCodes)
      case None => Err(TokenizerError)
      case Some(err) => Ok((Scan(sc.items + [MakeOperand(err, isFloat)], sc.stack, sc.token), |err|))
  }

  /** Whether a "+" or "-" after this token is infix. */
  predicate InfixAfter(prev: Token)
  {
    prev.subtype == Close || prev.kind == OpPost || prev.kind == Operand
  }

  /** `parse_operator` */
  function ConsumeOperator(f: string, o: nat, sc: Scan): (r: Result<(Scan, nat)>)
    requires o < |f|
    ensures r.Ok? && r.value.1 >= 1
  {
    var (t, n) := OperatorToken(f, o, sc.items);
    Ok((Scan(sc.items + [t], sc.stack, sc.token), n))
  }

  /** The operator token `parse_operator` appends after `items`, and how many characters it
      reads: two for a two-character comparison, else one. */
  function OperatorToken(f: string, o: nat, items: seq<Token>): (r: (Token, nat))
    requires o < |f|
    ensures r.1 in {1, 2} && r.0.subtype == Plain && r.0.value == f[o..Min(o + r.1, |f|)]
  {
    var two := f[o..Min(o + 2, |f|)];
    if two in [">=", "<=", "<>", "≥", "≤", "≠"] then (Token(two, OpIn, Plain, 0), 2)
    else
      var c := f[o];
      assert f[o..o + 1] == [c];
      var t :=
        if c == '%' then Token("%", OpPost, Plain, 0)
        else if c in InfixChars then Token([c], OpIn, Plain, 0)
        else if items == [] then Token([c], OpPre, Plain, 0)
        else if InfixAfter(items[|items| - 1]) then Token([c], OpIn, Plain, 0)
        else Token([c], OpPre, Plain, 0);
      (t, 1)
  }

  /** `parse_opener`: "{" opens an array; "(" opens a function named by the pending operand,
      or a parenthesis when there is none. The opener is also pushed on the stack. */
  function ConsumeOpener(f: string, o: nat, sc: Scan): (r: Result<(Scan, nat)>)
    requires o < |f|
    ensures r.Ok? ==> r.value.1 == 1
    ensures r.Err? ==> r.error == TokenizerError
  {
    var c := f[o];
    if c != '(' && c != '{' then Err(TokenizerError)
    else if c == '{' && sc.token != "" then Err(TokenizerError)
    else
      var value := if c == '{' then "{" else sc.token + "(";
      var t :- MakeSubexp(value, false);
      Ok((Scan(sc.items + [t], sc.stack + [t], ""), 1))
  }

  /** `parse_closer`: pops the innermost opener, whose closer must be this character. */
  function ConsumeCloser(f: string, o: nat, sc: Scan): (r: Result<(Scan, nat)>)
    requires o < |f|
    ensures r.Ok? ==> r.value.1 == 1
    ensures (f[o] == ')' || f[o] == '}') && sc.stack == [] ==> r == Err(IndexError)
    ensures r.Err? && sc.stack != [] ==> r.error == TokenizerError
  {
    var c := f[o];
    if c != ')' && c != '}' then Err(TokenizerError)
    else if sc.stack == [] then Err(IndexError)
    else
      var t :- GetCloser(sc.stack[|sc.stack| - 1]);
      if t.value != [c] then Err(TokenizerError)
      else Ok((Scan(sc.items + [t], sc.stack[..|sc.stack| - 1], sc.token), 1))
  }

  /** `parse_separator`: ";" separates rows; "," is the union operator at the top level and
      directly inside parentheses, and separates arguments or array items otherwise. */
  function ConsumeSeparator(f: string, o: nat, sc: Scan): (r: Result<(Scan, nat)>)
    requires o < |f|
    ensures r.Ok? <==> f[o] == ';' || f[o] == ','
    ensures r.Ok? ==> r.value.1 == 1
    ensures r.Err? ==> r.error == TokenizerError
  {
    var c := f[o];
    if c != ';' && c != ',' then Err(TokenizerError)
    else
      var t :-
        if c == ';' then MakeSeparator(";")
        else if sc.stack == [] || sc.stack[|sc.stack| - 1].kind == Paren then Ok(Token(",", OpIn, Plain, 0))
        else MakeSeparator(",");
      Ok((Scan(sc.items + [t], sc.stack, sc.token), 1))
  }

  /** The consumer the dispatcher picks for the character at `o`. */
  function Consume(f: string, o: nat, sc: Scan, isFloat: string -> bool): (r: Result<(Scan, nat)>)
    requires o < |f|
    ensures r.Ok? ==> r.value.1 >= 1
  {
    var c := f[o];
    if c == '"' || c == '\'' then ConsumeString(f, o, sc, isFloat)
    else if c == '[' then ConsumeBrackets(f, o, sc)
    else if c == '#' then ConsumeError(f, o, sc, isFloat)
    else if c in OperatorChars then ConsumeOperator(f, o, sc)
    else if c == '{' || c == '(' then ConsumeOpener(f, o, sc)
    else if c == ')' || c == '}' then ConsumeCloser(f, o, sc)
    else ConsumeSeparator(f, o, sc)
  }

  /** `[1-9](\.[0-9]+)?E` */
  predicate SciMantissa(t: string)
  {
    && |t| >= 2 && '1' <= t[0] <= '9' && t[|t| - 1] == 'E'
    && (|t| == 2 || (|t| >= 4 && t[1] == '.' && forall k :: 2 <= k < |t| - 1 ==> '0' <= t[k] <= '9'))
  }

  /** `SN_RE.match`: the pending operand is a mantissa and "E"; `$` also matches before a
      final newline. */
  predicate SciToken(t: string)
  {
    SciMantissa(t) || (|t| >= 1 && t[|t| - 1] == '\n' && SciMantissa(t[..|t| - 1]))
  }

  /** One pass of the loop in `parse`: the state after it and the new offset. A sign after
      a mantissa joins the pending operand (`check_scientific_notation`); otherwise a
      token-ending character first saves the pending operand, then the character is consumed
      or joins the pending operand. */
  function Step(f: string, o: nat, sc: Scan, isFloat: string -> bool): (r: Result<(Scan, nat)>)
    requires o < |f|
    ensures r.Ok? ==> r.value.1 > o
  {
    var c := f[o];
    if (c == '+' || c == '-') && |sc.token| >= 1 && SciToken(sc.token) then
      Ok((Scan(sc.items, sc.stack, sc.token + [c]), o + 1))
    else
      var sc1 := if c in TokenEnders then Saved(sc, isFloat) else sc;
      if IsDispatched(c) then
        var p :- Consume(f, o, sc1, isFloat);
        Ok((p.0, o + p.1))
      else Ok((Scan(sc1.items, sc1.stack, sc1.token + [c]), o + 1))
  }

  /** The loop of `parse` from offset `o`. */
  function Run(f: string, o: nat, sc: Scan, isFloat: string -> bool): Result<Scan>
    decreases |f| - o
  {
    if o >= |f| then Ok(sc)
    else
      var p :- Step(f, o, sc, isFloat);
      Run(f, p.1, p.0, isFloat)
  }

  /** `parse`: the tokens of a formula. The empty formula has none, a formula not starting
      with "=" is one literal, and any other formula is scanned after its "=". */
  function Tokenize(f: string, isFloat: string -> bool): (r: Result<seq<Token>>)
  {
    if f == "" then Ok([])
    else if f[0] != '=' then Ok([Token(f, Literal, Plain, 0)])
    else
      var sc :- Run(f, 1, Scan([], [], ""), isFloat);
      Ok(Saved(sc, isFloat).items)
  }

  /** The token texts, joined. */
  function Values(items: seq<Token>): string
  {
    if items == [] then "" else Values(items[..|items| - 1]) + items[|items| - 1].value
  }

  /** `render` */
  function Rendered(items: seq<Token>): string
  {
    if items == [] then ""
    else if items[0].kind == Literal then items[0].value
    else "=" + Values(items)
  }

  /** The text a parse has read: the token texts and the pending operand. */
  function TextOf(sc: Scan): string
  {
    Values(sc.items) + sc.token
  }

  lemma ValuesSnoc(items: seq<Token>, t: Token)
    ensures Values(items + [t]) == Values(items) + t.value
  {
    assert (items + [t])[..|items|] == items;
  }

  /** Saving the pending operand moves its text into the tokens. */
  lemma SaveKeepsText(sc: Scan, isFloat: string -> bool)
    ensures TextOf(Saved(sc, isFloat)) == TextOf(sc)
  {
    if sc.token != "" {
      ValuesSnoc(sc.items, MakeOperand(sc.token, isFloat));
    }
  }

  /** Each consumer adds exactly the characters it consumed to the text read. Every
      token-ending character meets an empty pending operand, as `parse` saves it first. */
  lemma ConsumeKeepsText(f: string, o: nat, sc: Scan, isFloat: string -> bool)
    requires o < |f| && Consume(f, o, sc, isFloat).Ok?
    requires f[o] in TokenEnders ==> sc.token == ""
    ensures var p := Consume(f, o, sc, isFloat).value;
            TextOf(p.0) == TextOf(sc) + f[o..Min(o + p.1, |f|)]
  {
    var c := f[o];
    if c == '"' || c == '\'' {
      StringKeepsText(f, o, sc, isFloat);
    } else if c == '[' {
      BracketsKeepsText(f, o, sc);
    } else if c == '#' {
      ErrorKeepsText(f, o, sc, isFloat);
    } else {
      OtherKeepsText(f, o, sc, isFloat);
    }
  }

  /** The consumers of operators, openers, closers and separators. */
  lemma OtherKeepsText(f: string, o: nat, sc: Scan, isFloat: string -> bool)
    requires o < |f| && Consume(f, o, sc, isFloat).Ok?
    requires f[o] in TokenEnders ==> sc.token == ""
    requires f[o] != '"' && f[o] != '\'' && f[o] != '[' && f[o] != '#'
    ensures var p := Consume(f, o, sc, isFloat).value;
            TextOf(p.0) == TextOf(sc) + f[o..Min(o + p.1, |f|)]
  {
    var c := f[o];
    if c in OperatorChars {
      OperatorEndsToken(c);
      OperatorKeepsText(f, o, sc);
    } else if c == '{' || c == '(' {
      OpenerKeepsText(f, o, sc);
    } else if c == ')' || c == '}' {
      CloserKeepsText(f, o, sc);
    } else {
      SeparatorKeepsText(f, o, sc);
    }
  }

  lemma OperatorEndsToken(c: char)
    requires c in OperatorChars
    ensures c in TokenEnders
  {
  }

  lemma BracketsKeepsText(f: string, o: nat, sc: Scan)
    requires o < |f| && ConsumeBrackets(f, o, sc).Ok?
    ensures var p := ConsumeBrackets(f, o, sc).value;
            TextOf(p.0) == TextOf(sc) + f[o..Min(o + p.1, |f|)]
  {
  }

  lemma OpenerKeepsText(f: string, o: nat, sc: Scan)
    requires o < |f| && ConsumeOpener(f, o, sc).Ok?
    ensures var p := ConsumeOpener(f, o, sc).value;
            TextOf(p.0) == TextOf(sc) + f[o..Min(o + p.1, |f|)]
  {
    OneMore(f, o, sc, ConsumeOpener(f, o, sc).value.0);
  }

  lemma CloserKeepsText(f: string, o: nat, sc: Scan)
    requires o < |f| && sc.token == "" && ConsumeCloser(f, o, sc).Ok?
    ensures var p := ConsumeCloser(f, o, sc).value;
            TextOf(p.0) == TextOf(sc) + f[o..Min(o + p.1, |f|)]
  {
    OneMore(f, o, sc, ConsumeCloser(f, o, sc).value.0);
  }

  lemma SeparatorKeepsText(f: string, o: nat, sc: Scan)
    requires o < |f| && sc.token == "" && ConsumeSeparator(f, o, sc).Ok?
    ensures var p := ConsumeSeparator(f, o, sc).value;
            TextOf(p.0) == TextOf(sc) + f[o..Min(o + p.1, |f|)]
  {
    OneMore(f, o, sc, ConsumeSeparator(f, o, sc).value.0);
  }

  lemma StringKeepsText(f: string, o: nat, sc: Scan, isFloat: string -> bool)
    requires o < |f| && ConsumeString(f, o, sc, isFloat).Ok?
    ensures var p := ConsumeString(f, o, sc, isFloat).value;
            TextOf(p.0) == TextOf(sc) + f[o..Min(o + p.1, |f|)]
  {
    var e := QuoteEnd(f, f[o], o + 1).value;
    if f[o] == '"' { ValuesSnoc(sc.items, MakeOperand(f[o..e], isFloat)); }
  }

  lemma ErrorKeepsText(f: string, o: nat, sc: Scan, isFloat: string -> bool)
    requires o < |f| && ConsumeError(f, o, sc, isFloat).Ok?
    ensures var p := ConsumeError(f, o, sc, isFloat).value;
            TextOf(p.0) == TextOf(sc) + f[o..Min(o + p.1, |f|)]
  {
    var err := FirstCode(f[o..], ErrorCodes).value;
    ValuesSnoc(sc.items, MakeOperand(err, isFloat));
    assert f[o..o + |err|] == f[o..][..|err|];
  }

  lemma OperatorKeepsText(f: string, o: nat, sc: Scan)
    requires o < |f| && sc.token == ""
    ensures var p := ConsumeOperator(f, o, sc).value;
            TextOf(p.0) == TextOf(sc) + f[o..Min(o + p.1, |f|)]
  {
    ValuesSnoc(sc.items, OperatorToken(f, o, sc.items).0);
  }

  /** A consumer that read one character and added one token holding it. */
  lemma OneMore(f: string, o: nat, sc: Scan, next: Scan)
    requires o < |f| && |next.items| == |sc.items| + 1 && next.items[..|sc.items|] == sc.items
    requires next.items[|sc.items|].value == sc.token + [f[o]] && next.token == ""
    ensures TextOf(next) == TextOf(sc) + f[o..Min(o + 1, |f|)]
  {
    assert sc.items + [next.items[|sc.items|]] == next.items;
    ValuesSnoc(sc.items, next.items[|sc.items|]);
    assert f[o..o + 1] == [f[o]];
  }

  /** One pass of the loop adds exactly the characters it read to the text read. */
  lemma StepKeepsText(f: string, o: nat, sc: Scan, isFloat: string -> bool)
    requires o < |f| && Step(f, o, sc, isFloat).Ok?
    ensures var p := Step(f, o, sc, isFloat).value;
            TextOf(p.0) == TextOf(sc) + f[o..Min(p.1, |f|)]
  {
    var c := f[o];
    assert f[o..o + 1] == [c];
    if (c == '+' || c == '-') && |sc.token| >= 1 && SciToken(sc.token) {
      Text.AppendAssoc(Values(sc.items), sc.token, [c]);
    } else {
      var sc1 := if c in TokenEnders then Saved(sc, isFloat) else sc;
      SaveKeepsText(sc, isFloat);
      if IsDispatched(c) {
        ConsumeKeepsText(f, o, sc1, isFloat);
      } else {
        Text.AppendAssoc(Values(sc1.items), sc1.token, [c]);
      }
    }
  }

  /** The loop reads every remaining character into the tokens or the pending operand, in
      order. */
  lemma {:induction false} RunKeepsText(f: string, o: nat, sc: Scan, isFloat: string -> bool)
    requires Run(f, o, sc, isFloat).Ok?
    ensures TextOf(Run(f, o, sc, isFloat).value) == TextOf(sc) + f[Min(o, |f|)..]
    decreases |f| - o
  {
    if o < |f| {
      var p := Step(f, o, sc, isFloat).value;
      StepKeepsText(f, o, sc, isFloat);
      RunKeepsText(f, p.1, p.0, isFloat);
      JoinSlices(TextOf(sc), f, o, Min(p.1, |f|));
    }
  }

  lemma JoinSlices(t: string, f: string, a: nat, b: nat)
    requires a <= b <= |f|
    ensures (t + f[a..b]) + f[b..] == t + f[a..]
  {
    assert f[a..b] + f[b..] == f[a..];
    Text.AppendAssoc(t, f[a..b], f[b..]);
  }

  /** The openers left open after one more token: an opener is pushed, a closer must close
      the innermost opener, and any other token leaves them as they are. None once a closer
      has failed to match. */
  function Apply(open: Option<seq<Token>>, t: Token): Option<seq<Token>>
  {
    match open
    case None => None
    case Some(st) =>
      if IsOpener(t) then Some(st + [t])
      else if t.subtype == Close then
        if st != [] && CloserOf(st[|st| - 1]) == t then Some(st[..|st| - 1]) else None
      else Some(st)
  }

  /** The openers a sequence of tokens leaves open, innermost last. */
  function OpenStack(items: seq<Token>): Option<seq<Token>>
  {
    if items == [] then Some([]) else Apply(OpenStack(items[..|items| - 1]), items[|items| - 1])
  }

  /** Whether the innermost open bracket is a function or an array. */
  predicate InList(open: Option<seq<Token>>)
  {
    open.Some? && open.value != [] && open.value[|open.value| - 1].kind != Paren
  }

  /** How a token fits after the tokens before it: no literal inside a formula; "+" and "-"
      are infix exactly after a closer, a postfix operator or an operand; "%" is the only
      postfix operator; "," separates exactly when the innermost open bracket is a function or
      an array, and is the union operator otherwise; separators are "," for arguments and ";"
      for rows; a closer closes the innermost open bracket. */
  predicate Fits(before: seq<Token>, t: Token)
  {
    && t.kind != Literal
    && ((t.kind == OpPre || t.kind == OpIn) && (t.value == "+" || t.value == "-") ==>
          (t.kind == OpIn <==> before != [] && InfixAfter(before[|before| - 1])))
    && (t.kind == OpPost ==> t.value == "%")
    && (t.value == "," && (t.kind == OpIn || t.kind == Sep) ==> (t.kind == Sep <==> InList(OpenStack(before))))
    && (t.kind == Sep ==> (t.value == ";" && t.subtype == Row) || (t.value == "," && t.subtype == Arg))
    && Apply(OpenStack(before), t).Some?
  }

  /** Every token fits after the ones before it. */
  predicate WellFormed(items: seq<Token>)
  {
    items == [] || (WellFormed(items[..|items| - 1]) && Fits(items[..|items| - 1], items[|items| - 1]))
  }

  /** The invariant of a parse: the tokens are well formed and the stack holds the openers
      they leave open. */
  predicate Shaped(sc: Scan)
  {
    WellFormed(sc.items) && OpenStack(sc.items) == Some(sc.stack)
  }

  lemma ShapedSnoc(sc: Scan, t: Token, stack: seq<Token>)
    requires Shaped(sc) && Fits(sc.items, t) && Apply(Some(sc.stack), t) == Some(stack)
    ensures WellFormed(sc.items + [t]) && OpenStack(sc.items + [t]) == Some(stack)
  {
    assert (sc.items + [t])[..|sc.items|] == sc.items;
  }

  /** An operand fits anywhere. */
  lemma SaveKeepsShape(sc: Scan, isFloat: string -> bool)
    requires Shaped(sc)
    ensures Shaped(Saved(sc, isFloat))
  {
    if sc.token != "" {
      ShapedSnoc(sc, MakeOperand(sc.token, isFloat), sc.stack);
    }
  }

  lemma StringKeepsShape(f: string, o: nat, sc: Scan, isFloat: string -> bool)
    requires o < |f| && Shaped(sc) && ConsumeString(f, o, sc, isFloat).Ok?
    ensures Shaped(ConsumeString(f, o, sc, isFloat).value.0)
  {
    if f[o] == '"' {
      var e := QuoteEnd(f, f[o], o + 1).value;
      ShapedSnoc(sc, MakeOperand(f[o..e], isFloat), sc.stack);
    }
  }

  lemma ErrorKeepsShape(f: string, o: nat, sc: Scan, isFloat: string -> bool)
    requires o < |f| && Shaped(sc) && ConsumeError(f, o, sc, isFloat).Ok?
    ensures Shaped(ConsumeError(f, o, sc, isFloat).value.0)
  {
    ShapedSnoc(sc, MakeOperand(FirstCode(f[o..], ErrorCodes).value, isFloat), sc.stack);
  }

  lemma OperatorKeepsShape(f: string, o: nat, sc: Scan)
    requires o < |f| && Shaped(sc) && f[o] in OperatorChars
    ensures Shaped(ConsumeOperator(f, o, sc).value.0)
  {
    var t := OperatorToken(f, o, sc.items).0;
    OperatorFits(f, o, sc.items);
    ShapedSnoc(sc, t, sc.stack);
  }

  /** The operator token fits: "+" and "-" are infix exactly after a closer, a postfix
      operator or an operand, and "%" is postfix. */
  lemma OperatorFits(f: string, o: nat, items: seq<Token>)
    requires o < |f| && f[o] in OperatorChars && OpenStack(items).Some?
    ensures Fits(items, OperatorToken(f, o, items).0)
  {
    var two := f[o..Min(o + 2, |f|)];
    if two !in [">=", "<=", "<>", "≥", "≤", "≠"] {
      var c := f[o];
      assert c == '%' || c in InfixChars || c == '+' || c == '-';
    }
  }

  lemma OpenerKeepsShape(f: string, o: nat, sc: Scan)
    requires o < |f| && Shaped(sc) && ConsumeOpener(f, o, sc).Ok?
    ensures Shaped(ConsumeOpener(f, o, sc).value.0)
  {
    var p := ConsumeOpener(f, o, sc).value;
    var t := p.0.items[|sc.items|];
    assert sc.items + [t] == p.0.items;
    ShapedSnoc(sc, t, sc.stack + [t]);
  }

  lemma CloserKeepsShape(f: string, o: nat, sc: Scan)
    requires o < |f| && Shaped(sc) && ConsumeCloser(f, o, sc).Ok?
    ensures Shaped(ConsumeCloser(f, o, sc).value.0)
  {
    var p := ConsumeCloser(f, o, sc).value;
    var t := p.0.items[|sc.items|];
    assert sc.items + [t] == p.0.items;
    ShapedSnoc(sc, t, sc.stack[..|sc.stack| - 1]);
  }

  lemma SeparatorKeepsShape(f: string, o: nat, sc: Scan)
    requires o < |f| && Shaped(sc) && ConsumeSeparator(f, o, sc).Ok?
    ensures Shaped(ConsumeSeparator(f, o, sc).value.0)
  {
    var p := ConsumeSeparator(f, o, sc).value;
    var t := p.0.items[|sc.items|];
    assert sc.items + [t] == p.0.items;
    ShapedSnoc(sc, t, sc.stack);
  }

  lemma ConsumeKeepsShape(f: string, o: nat, sc: Scan, isFloat: string -> bool)
    requires o < |f| && Shaped(sc) && Consume(f, o, sc, isFloat).Ok?
    ensures Shaped(Consume(f, o, sc, isFloat).value.0)
  {
    var c := f[o];
    if c == '"' || c == '\'' {
      StringKeepsShape(f, o, sc, isFloat);
    } else if c == '[' {
    } else if c == '#' {
      ErrorKeepsShape(f, o, sc, isFloat);
    } else if c in OperatorChars {
      OperatorKeepsShape(f, o, sc);
    } else if c == '{' || c == '(' {
      OpenerKeepsShape(f, o, sc);
    } else if c == ')' || c == '}' {
      CloserKeepsShape(f, o, sc);
    } else {
      SeparatorKeepsShape(f, o, sc);
    }
  }

  lemma StepKeepsShape(f: string, o: nat, sc: Scan, isFloat: string -> bool)
    requires o < |f| && Shaped(sc) && Step(f, o, sc, isFloat).Ok?
    ensures Shaped(Step(f, o, sc, isFloat).value.0)
  {
    var c := f[o];
    if !((c == '+' || c == '-') && |sc.token| >= 1 && SciToken(sc.token)) {
      var sc1 := if c in TokenEnders then Saved(sc, isFloat) else sc;
      SaveKeepsShape(sc, isFloat);
      if IsDispatched(c) {
        ConsumeKeepsShape(f, o, sc1, isFloat);
      }
    }
  }

  lemma {:induction false} RunKeepsShape(f: string, o: nat, sc: Scan, isFloat: string -> bool)
    requires Shaped(sc) && Run(f, o, sc, isFloat).Ok?
    ensures Shaped(Run(f, o, sc, isFloat).value)
    decreases |f| - o
  {
    if o < |f| {
      var p := Step(f, o, sc, isFloat).value;
      StepKeepsShape(f, o, sc, isFloat);
      RunKeepsShape(f, p.1, p.0, isFloat);
    }
  }

  /** The tokens of a formula fit together: signs, postfix operators, commas and separators
      are as their context requires, and every closer closes the innermost open bracket of its
      own kind. Brackets may be left open. */
  lemma TokensFit(f: string, isFloat: string -> bool)
    requires |f| >= 1 && f[0] == '=' && Tokenize(f, isFloat).Ok?
    ensures WellFormed(Tokenize(f, isFloat).value) && OpenStack(Tokenize(f, isFloat).value).Some?
  {
    var start := Scan([], [], "");
    RunKeepsShape(f, 1, start, isFloat);
    SaveKeepsShape(Run(f, 1, start, isFloat).value, isFloat);
  }

  lemma {:induction false} FirstNotLiteral(items: seq<Token>)
    requires WellFormed(items) && items != []
    ensures items[0].kind != Literal
  {
    if |items| > 1 {
      FirstNotLiteral(items[..|items| - 1]);
    }
  }

  /** Tokenizing loses no text: rendering the tokens gives the formula back, except that the
      formula "=" alone has no tokens and renders as "". */
  lemma RenderTokenize(f: string, isFloat: string -> bool)
    requires Tokenize(f, isFloat).Ok?
    ensures Rendered(Tokenize(f, isFloat).value) == if f == "=" then "" else f
  {
    if f != "" && f[0] == '=' {
      var start := Scan([], [], "");
      var sc := Run(f, 1, start, isFloat).value;
      RunKeepsText(f, 1, start, isFloat);
      SaveKeepsText(sc, isFloat);
      var items := Tokenize(f, isFloat).value;
      assert TextOf(start) == "";
      assert Min(1, |f|) == 1;
      assert TextOf(sc) == "" + f[1..];
      assert items == Saved(sc, isFloat).items;
      assert TextOf(Saved(sc, isFloat)) == Values(items) + "";
      assert Values(items) + "" == Values(items);
      assert "" + f[1..] == f[1..];
      assert Values(items) == f[1..];
      if items != [] {
        TokensFit(f, isFloat);
        FirstNotLiteral(items);
      }
      assert f == "=" + f[1..];
    }
  }

  /** Every `q` doubled: how a string is written inside quotes. */
  function Escaped(s: string, q: char): (r: string)
    ensures |r| >= |s|
  {
    if s == [] then "" else (if s[0] == q then [q, q] else [s[0]]) + Escaped(s[1..], q)
  }

  /** A string opened before `i` whose body is an escaped text ends at the quote after it. */
  lemma {:induction false} QuoteEndEscaped(f: string, q: char, i: nat, s: string)
    requires var e := Escaped(s, q);
             && i + |e| < |f| && f[i + |e|] == q && (i + |e| + 1 == |f| || f[i + |e| + 1] != q)
             && forall k :: 0 <= k < |e| ==> f[i + k] == e[k]
    ensures QuoteEnd(f, q, i) == Some(i + |Escaped(s, q)| + 1)
    decreases s
  {
    if s != [] {
      var e := Escaped(s, q);
      var rest := Escaped(s[1..], q);
      var w := if s[0] == q then 2 else 1;
      assert e == (if s[0] == q then [q, q] else [s[0]]) + rest;
      forall k | 0 <= k < |rest| ensures f[i + w + k] == rest[k] {
        assert f[i + w + k] == e[w + k];
      }
      assert f[i] == e[0];
      if s[0] == q { assert f[i + 1] == e[1]; }
      QuoteEndEscaped(f, q, i + w, s[1..]);
    }
  }

  /** No closing quote from `i` on: the string never ends. */
  lemma {:induction false} QuoteEndNone(f: string, q: char, i: nat)
    requires forall k :: i <= k < |f| ==> f[k] != q
    ensures QuoteEnd(f, q, i).None?
    decreases |f| - i
  {
    if i < |f| {
      QuoteEndNone(f, q, i + 1);
    }
  }

  /** A formula that is one double-quoted string, its quotes doubled inside, is one text
      operand holding the quoted string. */
  lemma QuotedTextOperand(s: string, isFloat: string -> bool)
    ensures var quoted := "\"" + Escaped(s, '"') + "\"";
            Tokenize("=" + quoted, isFloat) == Ok([Token(quoted, Operand, TextValue, 0)])
  {
    var quoted := "\"" + Escaped(s, '"') + "\"";
    var f := "=" + quoted;
    var next := Scan([Token(quoted, Operand, TextValue, 0)], [], "");
    QuotedStringStep(s, isFloat);
    RunStep(f, 1, Scan([], [], ""), isFloat, next, |f|);
    assert Run(f, 1, Scan([], [], ""), isFloat) == Ok(next);
  }

  /** The one pass that reads a whole quoted string. */
  lemma QuotedStringStep(s: string, isFloat: string -> bool)
    ensures var quoted := "\"" + Escaped(s, '"') + "\"";
            var f := "=" + quoted;
            Step(f, 1, Scan([], [], ""), isFloat) == Ok((Scan([Token(quoted, Operand, TextValue, 0)], [], ""), |f|))
  {
    var e := Escaped(s, '"');
    var quoted := "\"" + e + "\"";
    var f := "=" + quoted;
    forall k | 0 <= k < |e| ensures f[2 + k] == e[k] { }
    QuoteEndEscaped(f, '"', 2, s);
    assert f[1..|f|] == quoted;
    var start := Scan([], [], "");
    var next := Scan([Token(quoted, Operand, TextValue, 0)], [], "");
    assert f[1] == '"';
    assert QuoteEnd(f, f[1], 2) == Some(|f|);
    assert start.items + [Token(quoted, Operand, TextValue, 0)] == next.items;
    assert MakeOperand(quoted, isFloat) == Token(quoted, Operand, TextValue, 0);
    assert ConsumeString(f, 1, start, isFloat) == Ok((next, |f| - 1));
    QuoteStep(f, 1, start, isFloat);
  }

  /** A double quote ends no operand and goes to `ConsumeString`. */
  lemma QuoteStep(f: string, o: nat, sc: Scan, isFloat: string -> bool)
    requires o < |f| && f[o] == '"' && ConsumeString(f, o, sc, isFloat).Ok?
    ensures var p := ConsumeString(f, o, sc, isFloat).value;
            Step(f, o, sc, isFloat) == Ok((p.0, o + p.1))
  {
    QuoteNotEnder();
  }


  lemma QuoteNotEnder()
    ensures '"' !in TokenEnders && IsDispatched('"')
  {
  }

  /** A string or link that is never closed raises TokenizerError. */
  lemma UnterminatedString(q: char, s: string, isFloat: string -> bool)
    requires q == '"' || q == '\''
    requires q !in s
    ensures Tokenize("=" + [q] + s, isFloat) == Err(TokenizerError)
  {
    var f := "=" + [q] + s;
    forall k | 2 <= k < |f| ensures f[k] != q { assert f[k] == s[k - 2]; }
    QuoteEndNone(f, q, 2);
    assert f[1] == q && q !in TokenEnders;
    assert Step(f, 1, Scan([], [], ""), isFloat) == Err(TokenizerError);
    assert Run(f, 1, Scan([], [], ""), isFloat) == Err(TokenizerError);
  }

  /** A character with no consumer joins the pending operand. */
  lemma PlainStep(f: string, o: nat, sc: Scan, isFloat: string -> bool)
    requires o < |f| && f[o] !in TokenEnders && !IsDispatched(f[o])
    ensures Step(f, o, sc, isFloat) == Ok((Scan(sc.items, sc.stack, sc.token + [f[o]]), o + 1))
  {
  }

  /** An operator saves the pending operand, then adds its own token. */
  lemma OperatorStep(f: string, o: nat, sc: Scan, isFloat: string -> bool)
    requires o < |f| && f[o] in OperatorChars && f[o] != '+' && f[o] != '-'
    ensures var saved := Saved(sc, isFloat);
            var (t, n) := OperatorToken(f, o, saved.items);
            Step(f, o, sc, isFloat) == Ok((Scan(saved.items + [t], saved.stack, ""), o + n))
  {
  }

  /** A sign after no pending operand is an operator too. */
  lemma SignStep(f: string, o: nat, sc: Scan, isFloat: string -> bool)
    requires o < |f| && (f[o] == '+' || f[o] == '-') && sc.token == ""
    ensures var (t, n) := OperatorToken(f, o, sc.items);
            Step(f, o, sc, isFloat) == Ok((Scan(sc.items + [t], sc.stack, ""), o + n))
  {
  }

  /** The loop goes on from wherever one pass leaves it. */
  lemma RunStep(f: string, o: nat, sc: Scan, isFloat: string -> bool, next: Scan, o2: nat)
    requires o < |f| && Step(f, o, sc, isFloat) == Ok((next, o2))
    ensures Run(f, o, sc, isFloat) == Run(f, o2, next, isFloat)
  {
  }

  /** Letters and digits neither end a token nor have a consumer. */
  lemma LettersAndDigitsArePlain(c: char)
    requires 'A' <= c <= 'Z' || 'a' <= c <= 'z' || '0' <= c <= '9'
    ensures c !in TokenEnders && !IsDispatched(c)
  {
  }

  /** Characters with no consumer all join the pending operand. */
  lemma {:induction false} PlainRun(f: string, o: nat, sc: Scan, isFloat: string -> bool)
    requires o <= |f|
    requires forall k :: o <= k < |f| ==> f[k] !in TokenEnders && !IsDispatched(f[k])
    ensures Run(f, o, sc, isFloat) == Ok(Scan(sc.items, sc.stack, sc.token + f[o..]))
    decreases |f| - o
  {
    if o < |f| {
      var next := Scan(sc.items, sc.stack, sc.token + [f[o]]);
      PlainStep(f, o, sc, isFloat);
      PlainRun(f, o + 1, next, isFloat);
      assert f[o..] == [f[o]] + f[o + 1..];
      assert next.token + f[o + 1..] == sc.token + f[o..];
    } else {
      assert sc.token + f[o..] == sc.token;
    }
  }

  /** A formula after "=" tokenizes to what the loop leaves, with the pending operand saved. */
  lemma TokenizeOfRun(f: string, isFloat: string -> bool, sc: Scan)
    requires |f| >= 1 && f[0] == '=' && Run(f, 1, Scan([], [], ""), isFloat) == Ok(sc)
    ensures Tokenize(f, isFloat) == Ok(Saved(sc, isFloat).items)
  {
  }

  /** "=-A1": a leading minus is a prefix operator. */
  lemma PrefixMinusExample(f: string, isFloat: string -> bool)
    requires f == "=-A1" && !isFloat("A1")
    ensures Tokenize(f, isFloat) == Ok([Token("-", OpPre, Plain, 0), Token("A1", Operand, Range, 0)])
  {
    var minus := Token("-", OpPre, Plain, 0);
    var a1 := Token("A1", Operand, Range, 0);
    var start := Scan([], [], "");
    var s1 := Scan([minus], [], "");
    LeadingMinus(f, isFloat);
    RunStep(f, 1, start, isFloat, s1, 2);
    assert f[2] == 'A' && f[3] == '1';
    LettersAndDigitsArePlain('A');
    LettersAndDigitsArePlain('1');
    PlainRun(f, 2, s1, isFloat);
    assert "" + f[2..] == "A1";
    TokenizeOfRun(f, isFloat, Scan([minus], [], "A1"));
    assert MakeOperand("A1", isFloat) == a1;
    assert [minus] + [a1] == [minus, a1];
  }

  lemma LeadingMinus(f: string, isFloat: string -> bool)
    requires f == "=-A1"
    ensures Step(f, 1, Scan([], [], ""), isFloat) == Ok((Scan([Token("-", OpPre, Plain, 0)], [], ""), 2))
  {
    var minus := Token("-", OpPre, Plain, 0);
    assert f[1..Min(3, |f|)] == "-A";
    assert OperatorToken(f, 1, []) == (minus, 1);
    SignStep(f, 1, Scan([], [], ""), isFloat);
    assert [] + [minus] == [minus];
  }


  /** "=A1%": "%" after an operand is a postfix operator, and saves the operand first. */
  lemma PostfixPercentExample(isFloat: string -> bool)
    requires !isFloat("A1")
    ensures Tokenize("=A1%", isFloat) == Ok([Token("A1", Operand, Range, 0), Token("%", OpPost, Plain, 0)])
  {
    var f := "=A1%";
    var a1 := Token("A1", Operand, Range, 0);
    var pct := Token("%", OpPost, Plain, 0);
    var start := Scan([], [], "");
    assert f[1] == 'A' && f[2] == '1';
    LettersAndDigitsArePlain('A');
    LettersAndDigitsArePlain('1');
    PlainStep(f, 1, start, isFloat);
    var s1 := Scan([], [], "A");
    assert "" + [f[1]] == "A" && "A" + [f[2]] == "A1";
    PlainStep(f, 2, s1, isFloat);
    var s2 := Scan([], [], "A1");
    assert Saved(s2, isFloat) == Scan([a1], [], "");
    assert f[3..Min(5, |f|)] == "%";
    assert OperatorToken(f, 3, [a1]) == (pct, 1);
    OperatorStep(f, 3, s2, isFloat);
    var s3 := Scan([a1, pct], [], "");
    assert [a1] + [pct] == [a1, pct];
    RunStep(f, 1, start, isFloat, s1, 2);
    RunStep(f, 2, s1, isFloat, s2, 3);
    RunStep(f, 3, s2, isFloat, s3, 4);
  }

  /** "=(1)": a parenthesis opens and closes around a number. */
  lemma ParenthesisExample(isFloat: string -> bool)
    requires isFloat("1")
    ensures Tokenize("=(1)", isFloat) ==
            Ok([Token("(", Paren, Open, 0), Token("1", Operand, Number, 0), Token(")", Paren, Close, 0)])
  {
    var f := "=(1)";
    var open := Token("(", Paren, Open, 0);
    var start := Scan([], [], "");
    var s1 := Scan([open], [open], "");
    var s2 := Scan([open], [open], "1");
    var s3 := Scan([open, Token("1", Operand, Number, 0), Token(")", Paren, Close, 0)], [], "");
    ParenOpens(f, isFloat);
    assert f[2] == '1';
    LettersAndDigitsArePlain('1');
    PlainStep(f, 2, s1, isFloat);
    assert "" + [f[2]] == "1";
    ParenCloses(f, isFloat);
    RunStep(f, 1, start, isFloat, s1, 2);
    RunStep(f, 2, s1, isFloat, s2, 3);
    RunStep(f, 3, s2, isFloat, s3, 4);
  }

  lemma ParenOpens(f: string, isFloat: string -> bool)
    requires f == "=(1)"
    ensures Step(f, 1, Scan([], [], ""), isFloat) ==
            Ok((Scan([Token("(", Paren, Open, 0)], [Token("(", Paren, Open, 0)], ""), 2))
  {
    var open := Token("(", Paren, Open, 0);
    var start := Scan([], [], "");
    assert MakeSubexp("(", false) == Ok(open);
    assert f[1] == '(' && start.token + "(" == "(";
    assert [] + [open] == [open];
    assert ConsumeOpener(f, 1, start) == Ok((Scan([open], [open], ""), 1));
    OpenerStep(f, 1, start, isFloat);
  }

  /** An opening parenthesis or brace ends no operand and goes to `ConsumeOpener`. */
  lemma OpenerStep(f: string, o: nat, sc: Scan, isFloat: string -> bool)
    requires o < |f| && f[o] == '(' && ConsumeOpener(f, o, sc).Ok?
    ensures Step(f, o, sc, isFloat) == Ok((ConsumeOpener(f, o, sc).value.0, o + ConsumeOpener(f, o, sc).value.1))
  {
    OpenerChar();
  }

  lemma OpenerChar()
    ensures '(' !in TokenEnders && '(' !in OperatorChars && IsDispatched('(')
  {
  }

  /** A closing parenthesis saves the pending operand and goes to `ConsumeCloser`. */
  lemma CloserStep(f: string, o: nat, sc: Scan, isFloat: string -> bool)
    requires o < |f| && f[o] == ')' && ConsumeCloser(f, o, Saved(sc, isFloat)).Ok?
    ensures var p := ConsumeCloser(f, o, Saved(sc, isFloat)).value;
            Step(f, o, sc, isFloat) == Ok((p.0, o + p.1))
  {
    CloserChar();
  }

  lemma CloserChar()
    ensures ')' in TokenEnders && ')' !in OperatorChars && IsDispatched(')')
  {
  }

  lemma ParenCloses(f: string, isFloat: string -> bool)
    requires f == "=(1)" && isFloat("1")
    ensures var open := Token("(", Paren, Open, 0);
            Step(f, 3, Scan([open], [open], "1"), isFloat) ==
            Ok((Scan([open, Token("1", Operand, Number, 0), Token(")", Paren, Close, 0)], [], ""), 4))
  {
    var open := Token("(", Paren, Open, 0);
    var one := Token("1", Operand, Number, 0);
    var close := Token(")", Paren, Close, 0);
    var s3 := Scan([open, one, close], [], "");
    assert Saved(Scan([open], [open], "1"), isFloat) == Scan([open, one], [open], "");
    assert GetCloser(open) == Ok(close);
    assert f[3] == ')' && close.value == [f[3]];
    assert [open, one] + [close] == [open, one, close];
    assert ConsumeCloser(f, 3, Scan([open, one], [open], "")) == Ok((s3, 1));
    CloserStep(f, 3, Scan([open], [open], "1"), isFloat);
  }

  /** What a consumer returns: the number of characters it read, or its error. */
  function Count(r: Result<(Scan, nat)>): Result<nat>
  {
    if r.Ok? then Ok(r.value.1) else Err(r.error)
  }

  /** `Tokenizer`: a formula and the state of its parse, updated in place. `isFloat` stands
      for Python's `float` test on an operand's text. Python's `__init__` is the constructor
      followed by `Parse`. */
  class Tokenizer {
    const formula: string
    const isFloat: string -> bool
    var items: seq<Token>
    var tokenStack: seq<Token>
    var offset: nat
    var token: string

    function Scanned(): Scan
      reads this
    {
      Scan(items, tokenStack, token)
    }

    constructor (formula: string, isFloat: string -> bool)
      ensures this.formula == formula && this.isFloat == isFloat
      ensures items == [] && tokenStack == [] && offset == 0 && token == ""
    {
      this.formula := formula;
      this.isFloat := isFloat;
      items := [];
      tokenStack := [];
      offset := 0;
      token := "";
    }

    /** `parse`: fills `items` with the tokens of the formula, or stops at the first error. */
    method Parse() returns (error: Option<Exc>)
      requires items == [] && tokenStack == [] && offset == 0 && token == ""
      modifies this
      ensures error.None? <==> Tokenize(formula, isFloat).Ok?
      ensures error.None? ==> items == Tokenize(formula, isFloat).value
      ensures error.Some? ==> Tokenize(formula, isFloat) == Err(error.value)
    {
      if formula == "" {
        return None;
      }
      if formula[0] == '=' {
        offset := offset + 1;
      } else {
        items := items + [Token(formula, Literal, Plain, 0)];
        return None;
      }
      while offset < |formula|
        invariant offset >= 1
        invariant Run(formula, offset, Scanned(), isFloat) == Run(formula, 1, Scan([], [], ""), isFloat)
        decreases |formula| - offset
      {
        ghost var before := Scanned();
        ghost var o := offset;
        var r := Advance();
        if r.Some? {
          RunFails(formula, o, before, isFloat, r.value);
          return r;
        }
        RunStep(formula, o, before, isFloat, Scanned(), offset);
      }
      SaveToken();
      return None;
    }

    /** One pass of the loop in `parse`. */
    method Advance() returns (error: Option<Exc>)
      requires offset < |formula|
      modifies this
      ensures var r := Step(formula, old(offset), old(Scanned()), isFloat);
              && (error.None? <==> r.Ok?)
              && (r.Ok? ==> Scanned() == r.value.0 && offset == r.value.1)
              && (r.Err? ==> error == Some(r.error))
    {
      var consumed := CheckScientificNotation();
      if consumed {
        return None;
      }
      var c := formula[offset];
      if c in TokenEnders {
        SaveToken();
      }
      if IsDispatched(c) {
        var r := Dispatch();
        if r.Err? {
          return Some(r.error);
        }
        offset := offset + r.value;
      } else {
        token := token + [c];
        offset := offset + 1;
      }
      return None;
    }

    /** The dispatcher of `parse`: the consumer for the character at the offset. */
    method Dispatch() returns (r: Result<nat>)
      requires offset < |formula|
      modifies this
      ensures r == Count(Consume(formula, old(offset), old(Scanned()), isFloat))
      ensures r.Ok? ==> Scanned() == Consume(formula, old(offset), old(Scanned()), isFloat).value.0
      ensures offset == old(offset)
    {
      var c := formula[offset];
      if c == '"' || c == '\'' {
        r := ParseString();
      } else if c == '[' {
        r := ParseBrackets();
      } else if c == '#' {
        r := ParseError();
      } else if c in OperatorChars {
        r := ParseOperator();
      } else if c == '{' || c == '(' {
        r := ParseOpener();
      } else if c == ')' || c == '}' {
        r := ParseCloser();
      } else {
        r := ParseSeparator();
      }
    }

    /** `check_scientific_notation`: a sign right after a mantissa joins the pending operand. */
    method CheckScientificNotation() returns (consumed: bool)
      requires offset < |formula|
      modifies this
      ensures var c := formula[old(offset)];
              consumed <==> (c == '+' || c == '-') && |old(token)| >= 1 && SciToken(old(token))
      ensures consumed ==> token == old(token) + [formula[old(offset)]] && offset == old(offset) + 1
      ensures items == old(items) && tokenStack == old(tokenStack)
      ensures !consumed ==> token == old(token) && offset == old(offset)
    {
      var c := formula[offset];
      if (c == '+' || c == '-') && |token| >= 1 && SciToken(token) {
        token := token + [c];
        offset := offset + 1;
        return true;
      }
      return false;
    }

    /** `assert_empty_token` */
    method AssertEmptyToken() returns (error: Option<Exc>)
      ensures error.None? <==> token == ""
      ensures error.Some? ==> error.value == TokenizerError
    {
      if token != "" {
        return Some(TokenizerError);
      }
      return None;
    }

    /** `save_token` */
    method SaveToken()
      modifies this
      ensures Scanned() == Saved(old(Scanned()), isFloat) && offset == old(offset)
    {
      if token != "" {
        items := items + [MakeOperand(token, isFloat)];
        token := "";
      }
    }

    /** `parse_string`; the regular expression's match is `QuoteEnd`. */
    method ParseString() returns (r: Result<nat>)
      requires offset < |formula|
      modifies this
      ensures r == Count(ConsumeString(formula, old(offset), old(Scanned()), isFloat))
      ensures r.Ok? ==> Scanned() == ConsumeString(formula, old(offset), old(Scanned()), isFloat).value.0
      ensures offset == old(offset)
    {
      var empty := AssertEmptyToken();
      if empty.Some? {
        return Err(empty.value);
      }
      var delim := formula[offset];
      if delim != '"' && delim != '\'' {
        return Err(TokenizerError);
      }
      var end := QuoteEnd(formula, delim, offset + 1);
      if end.None? {
        return Err(TokenizerError);
      }
      var m := formula[offset..end.value];
      if delim == '"' {
        items := items + [MakeOperand(m, isFloat)];
      } else {
        token := token + m;
      }
      return Ok(|m|);
    }

    /** `parse_brackets` */
    method ParseBrackets() returns (r: Result<nat>)
      requires offset < |formula|
      modifies this
      ensures r == Count(ConsumeBrackets(formula, old(offset), old(Scanned())))
      ensures r.Ok? ==> Scanned() == ConsumeBrackets(formula, old(offset), old(Scanned())).value.0
      ensures offset == old(offset)
    {
      if formula[offset] != '[' {
        return Err(TokenizerError);
      }
      var right := FindFrom(formula, ']', offset) + 1;
      if right == 0 {
        return Err(TokenizerError);
      }
      token := token + formula[offset..right];
      return Ok(right - offset);
    }

    /** `parse_error`: the loop over `ERROR_CODES` finds the first code the rest of the
        formula starts with. */
    method ParseError() returns (r: Result<nat>)
      requires offset < |formula|
      modifies this
      ensures r == Count(ConsumeError(formula, old(offset), old(Scanned()), isFloat))
      ensures r.Ok? ==> Scanned() == ConsumeError(formula, old(offset), old(Scanned()), isFloat).value.0
      ensures offset == old(offset)
    {
      var empty := AssertEmptyToken();
      if empty.Some? {
        return Err(empty.value);
      }
      if formula[offset] != '#' {
        return Err(TokenizerError);
      }
      var sub := formula[offset..];
      for i := 0 to |ErrorCodes|
        invariant FirstCode(sub, ErrorCodes) == FirstCode(sub, ErrorCodes[i..])
      {
        var err := ErrorCodes[i];
        assert ErrorCodes[i..] == [err] + ErrorCodes[i + 1..];
        if |err| <= |sub| && sub[..|err|] == err {
          items := items + [MakeOperand(err, isFloat)];
          return Ok(|err|);
        }
      }
      return Err(TokenizerError);
    }

    /** `parse_operator` */
    method ParseOperator() returns (r: Result<nat>)
      requires offset < |formula|
      modifies this
      ensures r == Count(ConsumeOperator(formula, old(offset), old(Scanned())))
      ensures r.Ok? ==> Scanned() == ConsumeOperator(formula, old(offset), old(Scanned())).value.0
      ensures offset == old(offset)
    {
      var two := formula[offset..Min(offset + 2, |formula|)];
      if two in [">=", "<=", "<>", "≥", "≤", "≠"] {
        items := items + [Token(two, OpIn, Plain, 0)];
        return Ok(2);
      }
      var c := formula[offset];
      var t;
      if c == '%' {
        t := Token("%", OpPost, Plain, 0);
      } else if c in InfixChars {
        t := Token([c], OpIn, Plain, 0);
      } else if items == [] {
        t := Token([c], OpPre, Plain, 0);
      } else {
        var prev := items[|items| - 1];
        var isInfix := prev.subtype == Close || prev.kind in {OpPost, Operand};
        t := if isInfix then Token([c], OpIn, Plain, 0) else Token([c], OpPre, Plain, 0);
      }
      items := items + [t];
      return Ok(1);
    }

    /** `parse_opener` */
    method ParseOpener() returns (r: Result<nat>)
      requires offset < |formula|
      modifies this
      ensures r == Count(ConsumeOpener(formula, old(offset), old(Scanned())))
      ensures r.Ok? ==> Scanned() == ConsumeOpener(formula, old(offset), old(Scanned())).value.0
      ensures offset == old(offset)
    {
      var c := formula[offset];
      if c != '(' && c != '{' {
        return Err(TokenizerError);
      }
      var t;
      if c == '{' {
        var empty := AssertEmptyToken();
        if empty.Some? {
          return Err(empty.value);
        }
        t := MakeSubexp("{", false);
      } else if token != "" {
        var value := token + "(";
        token := "";
        t := MakeSubexp(value, false);
      } else {
        assert token + "(" == "(";
        t := MakeSubexp("(", false);
      }
      if t.Err? {
        return Err(t.error);
      }
      items := items + [t.value];
      tokenStack := tokenStack + [t.value];
      return Ok(1);
    }

    /** `parse_closer`: pops the innermost opener and checks that this character closes it. */
    method ParseCloser() returns (r: Result<nat>)
      requires offset < |formula|
      modifies this
      ensures r == Count(ConsumeCloser(formula, old(offset), old(Scanned())))
      ensures r.Ok? ==> Scanned() == ConsumeCloser(formula, old(offset), old(Scanned())).value.0
      ensures offset == old(offset)
    {
      var c := formula[offset];
      if c != ')' && c != '}' {
        return Err(TokenizerError);
      }
      if tokenStack == [] {
        return Err(IndexError);
      }
      var top := tokenStack[|tokenStack| - 1];
      tokenStack := tokenStack[..|tokenStack| - 1];
      var t := GetCloser(top);
      if t.Err? {
        return Err(t.error);
      }
      if t.value.value != [c] {
        return Err(TokenizerError);
      }
      items := items + [t.value];
      return Ok(1);
    }

    /** `parse_separator` */
    method ParseSeparator() returns (r: Result<nat>)
      requires offset < |formula|
      modifies this
      ensures r == Count(ConsumeSeparator(formula, old(offset), old(Scanned())))
      ensures r.Ok? ==> Scanned() == ConsumeSeparator(formula, old(offset), old(Scanned())).value.0
      ensures offset == old(offset)
    {
      var c := formula[offset];
      if c != ';' && c != ',' {
        return Err(TokenizerError);
      }
      var t;
      if c == ';' {
        t := MakeSeparator(";");
      } else if tokenStack == [] || tokenStack[|tokenStack| - 1].kind == Paren {
        t := Ok(Token(",", OpIn, Plain, 0));
      } else {
        t := MakeSeparator(",");
      }
      if t.Err? {
        return Err(t.error);
      }
      items := items + [t.value];
      return Ok(1);
    }

    /** `render` */
    method Render() returns (s: string)
      ensures s == Rendered(items)
    {
      if items == [] {
        return "";
      }
      if items[0].kind == Literal {
        return items[0].value;
      }
      s := "=";
      for i := 0 to |items|
        invariant s == "=" + Values(items[..i])
      {
        assert items[..i + 1][..i] == items[..i];
        s := s + items[i].value;
      }
      assert items[..|items|] == items;
    }
  }

  /** A pass that fails ends the loop with its error. */
  lemma RunFails(f: string, o: nat, sc: Scan, isFloat: string -> bool, e: Exc)
    requires o < |f| && Step(f, o, sc, isFloat) == Err(e)
    ensures Run(f, o, sc, isFloat) == Err(e)
  {
  }
}
