/** The conversion of formula tokens to reverse Polish notation (`Formula.rpn_tokens` in
    src/numbers_parser/formula.py), a shunting-yard pass over the tokenizer's output: operands
    go straight to the output, operators wait on a stack until an operator that binds no
    tighter, a separator or a closing bracket arrives, and functions count their arguments.
    `Version` selects the code as written or the corrected pass; the two share every rule
    except the ones the corrections change. */
module Rpn {
  import opened Outcomes
  import opened Tokenizer
  import Text

  /** `OPERATOR_PRECEDENCE`; None for a key the dictionary does not hold. */
  function PrecedenceAsWritten(op: string): (r: Option<nat>)
    ensures r.Some? ==> 2 <= r.value <= 6
  {
    if op == "%" then Some(6)
    else if op == "^" then Some(5)
    else if op == "×" || op == "*" || op == "/" || op == "÷" then Some(4)
    else if op == "+" || op == "-" then Some(3)
    else if op == "&" then Some(2)
    else None
  }

  /** The comparison operators, as the tokenizer and `OPERATOR_MAP` write them. */
  predicate IsComparison(op: string)
  {
    op in ["=", "<", ">", "<=", ">=", "<>", "≥", "≤", "≠"]
  }

  /** The corrected precedence: the dictionary's, with the comparisons binding loosest of all
      and any other infix operator (the union ",") binding tightest. */
  function Precedence(op: string): (r: nat)
    ensures 1 <= r <= 7
    ensures PrecedenceAsWritten(op).Some? ==> r == PrecedenceAsWritten(op).value
    ensures IsComparison(op) ==> r == 1
  {
    match PrecedenceAsWritten(op)
    case Some(p) => p
    case None => if IsComparison(op) then 1 else 7
  }

  /** The entries the examples below use. */
  lemma {:induction false} PrecedenceTable()
    ensures PrecedenceAsWritten("×") == Some(4) && PrecedenceAsWritten("+") == Some(3)
    ensures PrecedenceAsWritten(">") == None && Precedence(">") == 1
    ensures Precedence("×") == 4 && Precedence("+") == 3
  {
    assert "×"[0] != "%"[0];
  }

  datatype Version = AsWritten | Corrected

  /** A precedence lookup: the dictionary raises KeyError for a missing key. */
  function Lookup(v: Version, op: string): (r: Result<nat>)
    ensures v == Corrected ==> r == Ok(Precedence(op))
    ensures v == AsWritten ==> (r.Ok? <==> PrecedenceAsWritten(op).Some?)
    ensures r.Ok? ==> r.value == Precedence(op)
    ensures r.Err? ==> r.error == KeyError
  {
    if v == Corrected then Ok(Precedence(op))
    else match PrecedenceAsWritten(op)
      case Some(p) => Ok(p)
      case None => Err(KeyError)
  }

  /** `output` and `operators`. */
  datatype Shunt = Shunt(output: seq<Token>, operators: seq<Token>)

  function Last(s: seq<Token>): Token
    requires s != []
  {
    s[|s| - 1]
  }

  function Pop(s: seq<Token>): seq<Token>
    requires s != []
  {
    s[..|s| - 1]
  }

  /** `operators[-1].num_args += 1` when the top of the stack is a function. */
  function Bump(ops: seq<Token>): (r: seq<Token>)
    ensures |r| == |ops|
    ensures ops != [] ==> Pop(r) == Pop(ops)
    ensures ops != [] ==> var t := Last(ops);
              Last(r) == if t.kind == Func then Token(t.value, t.kind, t.subtype, t.numArgs + 1) else t
  {
    if ops != [] && Last(ops).kind == Func then
      var t := Last(ops);
      Pop(ops) + [Token(t.value, t.kind, t.subtype, t.numArgs + 1)]
    else ops
  }

  /** The last character dropped, as `value[0:-1]` does. */
  function DropLast(s: string): string
  {
    if s == [] then [] else s[..|s| - 1]
  }

  /** The loop before an infix operator is pushed: pop every infix operator on top that binds
      at least as tightly. The top's precedence is looked up before the new operator's. */
  function PopHigher(v: Version, out: seq<Token>, ops: seq<Token>, op: string): (r: Result<Shunt>)
    decreases |ops|
  {
    if ops == [] || Last(ops).kind != OpIn then Ok(Shunt(out, ops))
    else
      var top :- Lookup(v, Last(ops).value);
      var mine :- Lookup(v, op);
      if top >= mine then PopHigher(v, out + [Last(ops)], Pop(ops), op)
      else Ok(Shunt(out, ops))
  }

  /** Pop until the top is a function or an opening bracket. */
  function PopToOpener(out: seq<Token>, ops: seq<Token>): Shunt
    decreases |ops|
  {
    if ops == [] || Last(ops).kind == Func || Last(ops).subtype == Open then Shunt(out, ops)
    else PopToOpener(out + [Last(ops)], Pop(ops))
  }

  /** Pop until the top is an opening token. */
  function PopToOpen(out: seq<Token>, ops: seq<Token>): Shunt
    decreases |ops|
  {
    if ops == [] || Last(ops).subtype == Open then Shunt(out, ops)
    else PopToOpen(out + [Last(ops)], Pop(ops))
  }

  /** One turn of the loop over the tokens. The corrected pass differs in four places: a
      function call or parenthesis that starts an argument counts as one, as an operand does;
      a separator ends its argument by popping every operator of it; a closing parenthesis
      pops only up to its own opening one; and every infix operator has a precedence. */
  function Step(v: Version, s: Shunt, t: Token): Result<Shunt>
  {
    var out := s.output;
    var ops := s.operators;
    if t.kind == Operand || t.kind == Literal then Ok(Shunt(out + [t], Bump(ops)))
    else if t.kind == Func && t.subtype == Open then
      var below := if v == Corrected then Bump(ops) else ops;
      Ok(Shunt(out, below + [Token(DropLast(t.value), Func, Open, 0)]))
    else if t.kind == OpPost || t.kind == OpPre then Ok(Shunt(out + [t], ops))
    else if t.kind == OpIn then
      var p :- PopHigher(v, out, ops, t.value);
      Ok(Shunt(p.output, p.operators + [t]))
    else if t.kind == Func && t.subtype == Close then
      var p := PopToOpener(out, ops);
      if p.operators == [] then Ok(p)
      else Ok(Shunt(p.output + [Last(p.operators)], Pop(p.operators)))
    else if t.kind == Sep then
      if v == Corrected then Ok(PopToOpener(out, ops))
      else if ops != [] && Last(ops).kind != Func then Ok(Shunt(out + [Last(ops)], Pop(ops)))
      else Ok(s)
    else if t.kind == Paren && t.subtype == Open then
      Ok(Shunt(out, (if v == Corrected then Bump(ops) else ops) + [t]))
    else if t.kind == Paren && t.subtype == Close then
      var p := PopToOpen(out, ops);
      if p.operators == [] then Err(IndexError)
      else
        var rest := Pop(p.operators);
        if v == AsWritten && rest != [] && Last(rest).kind == Func then
          Ok(Shunt(p.output + [Last(rest)], Pop(rest)))
        else Ok(Shunt(p.output, rest))
    else Ok(s)
  }

  /** The loop over the tokens. */
  function Run(v: Version, s: Shunt, toks: seq<Token>): Result<Shunt>
    decreases |toks|
  {
    if toks == [] then Ok(s)
    else
      var next :- Step(v, s, toks[0]);
      Run(v, next, toks[1..])
  }

  /** The stack emptied top first. */
  function Reversed(s: seq<Token>): (r: seq<Token>)
    ensures |r| == |s|
  {
    if s == [] then [] else [Last(s)] + Reversed(Pop(s))
  }

  /** `rpn_tokens`: the loop, then the operators left on the stack, top first. */
  function Rpn(v: Version, toks: seq<Token>): Result<seq<Token>>
  {
    var s :- Run(v, Shunt([], []), toks);
    Ok(s.output + Reversed(s.operators))
  }

  /** Running two pieces of input is running the first, then the second. */
  lemma {:induction false} RunAppend(v: Version, s: Shunt, a: seq<Token>, b: seq<Token>)
    ensures Run(v, s, a + b) == match Run(v, s, a) case Ok(m) => Run(v, m, b) case Err(e) => Err(e)
    decreases |a|
  {
    if a != [] {
      assert (a + b)[0] == a[0] && (a + b)[1..] == a[1..] + b;
      match Step(v, s, a[0])
      case Ok(next) => RunAppend(v, next, a[1..], b);
      case Err(_) =>
    } else {
      assert a + b == b;
    }
  }

  // ---------------------------------------------------------------------------------------
  // The pass itself, over two local lists as `rpn_tokens` keeps them.

  /** The pop loop before an infix operator is pushed. */
  method PopHigherLoop(v: Version, output: seq<Token>, operators: seq<Token>, op: string) returns (r: Result<Shunt>)
    ensures r == PopHigher(v, output, operators, op)
  {
    var out, ops := output, operators;
    var stop := false;
    while !stop
      invariant PopHigher(v, output, operators, op) == if stop then Ok(Shunt(out, ops)) else PopHigher(v, out, ops, op)
      decreases |ops|, if stop then 0 else 1
    {
      if ops == [] || Last(ops).kind != OpIn {
        stop := true;
      } else {
        var top := Lookup(v, Last(ops).value);
        if top.Err? {
          return Err(top.error);
        }
        var mine := Lookup(v, op);
        if mine.Err? {
          return Err(mine.error);
        }
        if top.value >= mine.value {
          out, ops := out + [Last(ops)], Pop(ops);
        } else {
          stop := true;
        }
      }
    }
    return Ok(Shunt(out, ops));
  }

  /** The pop loop of a closing function parenthesis (`opener` true) or a closing
      parenthesis (`opener` false). */
  method PopToLoop(opener: bool, output: seq<Token>, operators: seq<Token>) returns (s: Shunt)
    ensures s == if opener then PopToOpener(output, operators) else PopToOpen(output, operators)
  {
    var out, ops := output, operators;
    while ops != [] && (!opener || Last(ops).kind != Func) && Last(ops).subtype != Open
      invariant (if opener then PopToOpener(output, operators) else PopToOpen(output, operators))
                == (if opener then PopToOpener(out, ops) else PopToOpen(out, ops))
      decreases |ops|
    {
      out, ops := out + [Last(ops)], Pop(ops);
    }
    return Shunt(out, ops);
  }

  /** One turn of the loop over the tokens. */
  method ReadToken(v: Version, output: seq<Token>, operators: seq<Token>, t: Token) returns (r: Result<Shunt>)
    ensures r == Step(v, Shunt(output, operators), t)
  {
    if t.kind == Operand || t.kind == Literal {
      r := Ok(Shunt(output + [t], Bump(operators)));
    } else if t.kind == Func && t.subtype == Open {
      var below := if v == Corrected then Bump(operators) else operators;
      r := Ok(Shunt(output, below + [Token(DropLast(t.value), Func, Open, 0)]));
    } else if t.kind == OpPost || t.kind == OpPre {
      r := Ok(Shunt(output + [t], operators));
    } else if t.kind == OpIn {
      var p := PopHigherLoop(v, output, operators, t.value);
      if p.Err? {
        return Err(p.error);
      }
      r := Ok(Shunt(p.value.output, p.value.operators + [t]));
    } else if t.kind == Func && t.subtype == Close {
      var p := PopToLoop(true, output, operators);
      if p.operators == [] {
        r := Ok(p);
      } else {
        r := Ok(Shunt(p.output + [Last(p.operators)], Pop(p.operators)));
      }
    } else if t.kind == Sep {
      if v == Corrected {
        var p := PopToLoop(true, output, operators);
        r := Ok(p);
      } else if operators != [] && Last(operators).kind != Func {
        r := Ok(Shunt(output + [Last(operators)], Pop(operators)));
      } else {
        r := Ok(Shunt(output, operators));
      }
    } else if t.kind == Paren && t.subtype == Open {
      r := Ok(Shunt(output, (if v == Corrected then Bump(operators) else operators) + [t]));
    } else if t.kind == Paren && t.subtype == Close {
      var p := PopToLoop(false, output, operators);
      if p.operators == [] {
        return Err(IndexError);
      }
      var rest := Pop(p.operators);
      if v == AsWritten && rest != [] && Last(rest).kind == Func {
        r := Ok(Shunt(p.output + [Last(rest)], Pop(rest)));
      } else {
        r := Ok(Shunt(p.output, rest));
      }
    } else {
      r := Ok(Shunt(output, operators));
    }
  }

  /** `rpn_tokens`: the loop over the tokens, then the stack emptied onto the output. */
  method RpnTokens(v: Version, tokens: seq<Token>) returns (r: Result<seq<Token>>)
    ensures r == Rpn(v, tokens)
  {
    var output: seq<Token>, operators: seq<Token> := [], [];
    for i := 0 to |tokens|
      invariant Run(v, Shunt([], []), tokens[..i]) == Ok(Shunt(output, operators))
    {
      var next := ReadToken(v, output, operators, tokens[i]);
      assert tokens[..i + 1] == tokens[..i] + [tokens[i]];
      RunAppend(v, Shunt([], []), tokens[..i], [tokens[i]]);
      RunOne(v, Shunt(output, operators), tokens[i]);
      if next.Err? {
        RunStops(v, Shunt([], []), tokens[..i + 1], tokens[i + 1..]);
        assert tokens[..i + 1] + tokens[i + 1..] == tokens;
        return Err(next.error);
      }
      output, operators := next.value.output, next.value.operators;
    }
    assert tokens[..|tokens|] == tokens;
    RpnOfRun(v, tokens, Shunt(output, operators));
    ghost var result := output + Reversed(operators);
    while operators != []
      invariant output + Reversed(operators) == result
      decreases |operators|
    {
      Text.AppendAssoc(output, [Last(operators)], Reversed(Pop(operators)));
      output, operators := output + [Last(operators)], Pop(operators);
    }
    assert output + Reversed(operators) == output;
    return Ok(output);
  }

  // ---------------------------------------------------------------------------------------
  // Operands keep their order.

  predicate IsOperandToken(t: Token)
  {
    t.kind == Operand || t.kind == Literal
  }

  /** The operand tokens of a sequence, in order. */
  function Operands(s: seq<Token>): seq<Token>
  {
    if s == [] then [] else Operands(Pop(s)) + (if IsOperandToken(Last(s)) then [Last(s)] else [])
  }

  lemma {:induction false} OperandsAppend(a: seq<Token>, b: seq<Token>)
    ensures Operands(a + b) == Operands(a) + Operands(b)
    decreases |b|
  {
    if b != [] {
      assert Pop(a + b) == a + Pop(b);
      assert Last(a + b) == Last(b);
      OperandsAppend(a, Pop(b));
    } else {
      assert a + b == a;
    }
  }

  lemma {:induction false} OperandsOne(x: Token)
    ensures Operands([x]) == if IsOperandToken(x) then [x] else []
  {
    assert Pop([x]) == [];
  }

  /** Moving a stack of non-operands to the output adds no operand. */
  lemma {:induction false} MoveTop(out: seq<Token>, ops: seq<Token>)
    requires ops != [] && Operands(ops) == []
    ensures Operands(out + [Last(ops)]) == Operands(out) && Operands(Pop(ops)) == []
  {
    OperandsAppend(out, [Last(ops)]);
    OperandsOne(Last(ops));
  }

  lemma {:induction false} BumpNoOperands(ops: seq<Token>)
    requires Operands(ops) == []
    ensures Operands(Bump(ops)) == []
  {
    if ops != [] && Last(ops).kind == Func {
      var t := Last(ops);
      OperandsAppend(Pop(ops), [Token(t.value, t.kind, t.subtype, t.numArgs + 1)]);
      OperandsOne(Token(t.value, t.kind, t.subtype, t.numArgs + 1));
    }
  }

  lemma {:induction false} PushNoOperand(ops: seq<Token>, t: Token)
    requires Operands(ops) == [] && !IsOperandToken(t)
    ensures Operands(ops + [t]) == []
  {
    OperandsAppend(ops, [t]);
    OperandsOne(t);
  }

  lemma {:induction false} PopHigherOperands(v: Version, out: seq<Token>, ops: seq<Token>, op: string)
    requires Operands(ops) == [] && PopHigher(v, out, ops, op).Ok?
    ensures var p := PopHigher(v, out, ops, op).value;
            Operands(p.output) == Operands(out) && Operands(p.operators) == []
    decreases |ops|
  {
    if ops != [] && Last(ops).kind == OpIn {
      if Lookup(v, Last(ops).value).value >= Lookup(v, op).value {
        MoveTop(out, ops);
        PopHigherOperands(v, out + [Last(ops)], Pop(ops), op);
      }
    }
  }

  lemma {:induction false} PopToOpenerOperands(out: seq<Token>, ops: seq<Token>)
    requires Operands(ops) == []
    ensures var p := PopToOpener(out, ops);
            Operands(p.output) == Operands(out) && Operands(p.operators) == []
    decreases |ops|
  {
    if !(ops == [] || Last(ops).kind == Func || Last(ops).subtype == Open) {
      MoveTop(out, ops);
      PopToOpenerOperands(out + [Last(ops)], Pop(ops));
    }
  }

  lemma {:induction false} PopToOpenOperands(out: seq<Token>, ops: seq<Token>)
    requires Operands(ops) == []
    ensures var p := PopToOpen(out, ops);
            Operands(p.output) == Operands(out) && Operands(p.operators) == []
    decreases |ops|
  {
    if !(ops == [] || Last(ops).subtype == Open) {
      MoveTop(out, ops);
      PopToOpenOperands(out + [Last(ops)], Pop(ops));
    }
  }

  /** A turn adds the token to the operands of the output when it is one, and never leaves an
      operand on the stack. */
  lemma {:induction false} StepOperands(v: Version, s: Shunt, t: Token)
    requires Operands(s.operators) == [] && Step(v, s, t).Ok?
    ensures var n := Step(v, s, t).value;
            Operands(n.output) == Operands(s.output) + Operands([t]) && Operands(n.operators) == []
  {
    var out := s.output;
    var ops := s.operators;
    OperandsOne(t);
    BumpNoOperands(ops);
    if t.kind == Operand || t.kind == Literal {
      OperandsAppend(out, [t]);
    } else if t.kind == Func && t.subtype == Open {
      PushNoOperand(if v == Corrected then Bump(ops) else ops, Token(DropLast(t.value), Func, Open, 0));
    } else if t.kind == OpPost || t.kind == OpPre {
      OperandsAppend(out, [t]);
    } else if t.kind == OpIn {
      PopHigherOperands(v, out, ops, t.value);
      PushNoOperand(PopHigher(v, out, ops, t.value).value.operators, t);
    } else if t.kind == Func && t.subtype == Close {
      FuncCloseOperands(v, s, t);
    } else if t.kind == Sep {
      SepOperands(v, s, t);
    } else if t.kind == Paren && t.subtype == Open {
      PushNoOperand(if v == Corrected then Bump(ops) else ops, t);
    } else if t.kind == Paren && t.subtype == Close {
      ParenCloseOperands(v, s, t);
    }
  }

  /** The closing turns of that lemma: a function's closing parenthesis pops to its opener and
      then the function. */
  lemma {:induction false} FuncCloseOperands(v: Version, s: Shunt, t: Token)
    requires t.kind == Func && t.subtype == Close
    requires Operands(s.operators) == [] && Step(v, s, t).Ok?
    ensures var n := Step(v, s, t).value;
            Operands(n.output) == Operands(s.output) + Operands([t]) && Operands(n.operators) == []
  {
    OperandsOne(t);
    var p := PopToOpener(s.output, s.operators);
    FuncCloseStep(v, s, t, p);
    PopToOpenerOperands(s.output, s.operators);
    if p.operators != [] {
      MoveTop(p.output, p.operators);
    }
  }

  lemma {:induction false} FuncCloseStep(v: Version, s: Shunt, t: Token, p: Shunt)
    requires t.kind == Func && t.subtype == Close && p == PopToOpener(s.output, s.operators)
    ensures Step(v, s, t) == if p.operators == [] then Ok(p) else Ok(Shunt(p.output + [Last(p.operators)], Pop(p.operators)))
  {
  }

  /** A separator pops to the opener (corrected) or the top operator (as written). */
  lemma {:induction false} SepOperands(v: Version, s: Shunt, t: Token)
    requires t.kind == Sep
    requires Operands(s.operators) == [] && Step(v, s, t).Ok?
    ensures var n := Step(v, s, t).value;
            Operands(n.output) == Operands(s.output) + Operands([t]) && Operands(n.operators) == []
  {
    OperandsOne(t);
    assert Operands([t]) == [];
    var out, ops := s.output, s.operators;
    if v == Corrected {
      assert Step(v, s, t).value == PopToOpener(out, ops);
      PopToOpenerOperands(out, ops);
    } else if ops != [] && Last(ops).kind != Func {
      assert Step(v, s, t).value == Shunt(out + [Last(ops)], Pop(ops));
      MoveTop(out, ops);
    } else {
      assert Step(v, s, t).value == s;
    }
    assert Operands(s.output) + [] == Operands(s.output);
  }

  /** A closing parenthesis pops to its opening one, and as written a function below it. */
  lemma {:induction false} ParenCloseOperands(v: Version, s: Shunt, t: Token)
    requires t.kind == Paren && t.subtype == Close
    requires Operands(s.operators) == [] && Step(v, s, t).Ok?
    ensures var n := Step(v, s, t).value;
            Operands(n.output) == Operands(s.output) + Operands([t]) && Operands(n.operators) == []
  {
    OperandsOne(t);
    PopToOpenOperands(s.output, s.operators);
    var p := PopToOpen(s.output, s.operators);
    ParenCloseStep(v, s, t, p);
    var rest := Pop(p.operators);
    MoveTop(p.output, p.operators);
    if v == AsWritten && rest != [] && Last(rest).kind == Func {
      assert Step(v, s, t).value == Shunt(p.output + [Last(rest)], Pop(rest));
      MoveTop(p.output, rest);
    } else {
      assert Step(v, s, t).value == Shunt(p.output, rest);
    }
  }

  lemma {:induction false} ParenCloseStep(v: Version, s: Shunt, t: Token, p: Shunt)
    requires t.kind == Paren && t.subtype == Close && p == PopToOpen(s.output, s.operators)
    ensures Step(v, s, t)
            == if p.operators == [] then Err(IndexError)
               else
                 var rest := Pop(p.operators);
                 if v == AsWritten && rest != [] && Last(rest).kind == Func then
                   Ok(Shunt(p.output + [Last(rest)], Pop(rest)))
                 else Ok(Shunt(p.output, rest))
  {
  }

  /** A successful run is a successful first turn followed by a run over the rest. */
  lemma {:induction false} RunCons(v: Version, s: Shunt, toks: seq<Token>)
    requires toks != [] && Run(v, s, toks).Ok?
    ensures Step(v, s, toks[0]).Ok?
    ensures Run(v, s, toks) == Run(v, Step(v, s, toks[0]).value, toks[1..])
  {
  }

  lemma {:induction false} OperandsCons(toks: seq<Token>)
    requires toks != []
    ensures Operands(toks) == Operands([toks[0]]) + Operands(toks[1..])
  {
    assert toks == [toks[0]] + toks[1..];
    OperandsAppend([toks[0]], toks[1..]);
  }

  lemma {:induction false} RunOperands(v: Version, s: Shunt, toks: seq<Token>)
    requires Operands(s.operators) == [] && Run(v, s, toks).Ok?
    ensures var n := Run(v, s, toks).value;
            Operands(n.output) == Operands(s.output) + Operands(toks) && Operands(n.operators) == []
    decreases |toks|
  {
    if toks != [] {
      RunCons(v, s, toks);
      var next := Step(v, s, toks[0]).value;
      StepOperands(v, s, toks[0]);
      RunOperands(v, next, toks[1..]);
      OperandsCons(toks);
      Text.AppendAssoc(Operands(s.output), Operands([toks[0]]), Operands(toks[1..]));
    } else {
      assert Operands(toks) == [];
    }
  }

  lemma {:induction false} ReversedOperands(s: seq<Token>)
    requires Operands(s) == []
    ensures Operands(Reversed(s)) == []
    decreases |s|
  {
    if s != [] {
      MoveTop([], s);
      ReversedOperands(Pop(s));
      OperandsAppend([Last(s)], Reversed(Pop(s)));
      OperandsOne(Last(s));
    }
  }

  /** The operands come out in the order they went in, with the code as written as well as
      corrected. */
  lemma {:induction false} RpnKeepsOperandOrder(v: Version, toks: seq<Token>)
    requires Rpn(v, toks).Ok?
    ensures Operands(Rpn(v, toks).value) == Operands(toks)
  {
    RunOperands(v, Shunt([], []), toks);
    var s := Run(v, Shunt([], []), toks).value;
    ReversedOperands(s.operators);
    OperandsAppend(s.output, Reversed(s.operators));
  }

  // ---------------------------------------------------------------------------------------
  // Expressions: the token sequence the tokenizer writes for an expression, and the postfix
  // sequence the renderer expects for it.

  /** An expression in the formula language, restricted to operands, infix operators,
      parentheses and function calls. */
  datatype Expr =
    | Leaf(t: Token)
    | Binary(op: string, left: Expr, right: Expr)
    | Group(inner: Expr)
    | Call(name: string, args: seq<Expr>)

  const Comma := Token(",", Sep, Arg, 0)
  const FuncClose := Token(")", Func, Close, 0)
  const OpenParen := Token("(", Paren, Open, 0)
  const CloseParen := Token(")", Paren, Close, 0)

  function OpToken(op: string): Token
  {
    Token(op, OpIn, Plain, 0)
  }

  /** A function after the conversion: its name without "(" and its number of arguments. */
  function FuncToken(name: string, n: nat): Token
  {
    Token(name, Func, Open, n)
  }

  /** The tokens of an expression as the tokenizer writes them. */
  function Infix(e: Expr): seq<Token>
    decreases e
  {
    match e
    case Leaf(t) => [t]
    case Binary(op, l, r) => Infix(l) + [OpToken(op)] + Infix(r)
    case Group(x) => [OpenParen] + Infix(x) + [CloseParen]
    case Call(name, args) => [Token(name + "(", Func, Open, 0)] + ArgTokens(args)
  }

  /** The arguments separated by commas, then the closing parenthesis. */
  function ArgTokens(args: seq<Expr>): seq<Token>
    decreases args
  {
    if args == [] then [FuncClose]
    else if |args| == 1 then Infix(args[0]) + [FuncClose]
    else Infix(args[0]) + [Comma] + ArgTokens(args[1..])
  }

  /** The expression in reverse Polish notation: operands first, then the operator or the
      function with its argument count; parentheses leave no trace. */
  function Postfix(e: Expr): seq<Token>
    decreases e
  {
    match e
    case Leaf(t) => [t]
    case Binary(op, l, r) => Postfix(l) + Postfix(r) + [OpToken(op)]
    case Group(x) => Postfix(x)
    case Call(name, args) => ArgPostfix(args) + [FuncToken(name, |args|)]
  }

  function ArgPostfix(args: seq<Expr>): seq<Token>
    decreases args
  {
    if args == [] then [] else Postfix(args[0]) + ArgPostfix(args[1..])
  }

  /** How tightly an expression binds: an operator's precedence, above every operator for
      everything else. */
  function Level(e: Expr): nat
  {
    if e.Binary? then Precedence(e.op) else 8
  }

  /** The tree the conversion reads from the tokens: operands are operand tokens, and an
      operator's left operand binds at least as tightly as it does and its right operand
      strictly more tightly (operators of one precedence group to the left). */
  predicate Parsed(e: Expr)
    decreases e
  {
    match e
    case Leaf(t) => IsOperandToken(t)
    case Binary(op, l, r) => Level(l) >= Precedence(op) && Level(r) > Precedence(op) && Parsed(l) && Parsed(r)
    case Group(x) => Parsed(x)
    case Call(_, args) => ParsedArgs(args)
  }

  predicate ParsedArgs(args: seq<Expr>)
    decreases args
  {
    args != [] ==> Parsed(args[0]) && ParsedArgs(args[1..])
  }

  /** No function call, and every operator in the precedence dictionary. */
  predicate Simple(e: Expr)
  {
    match e
    case Leaf(_) => true
    case Binary(op, l, r) => PrecedenceAsWritten(op).Some? && Simple(l) && Simple(r)
    case Group(x) => Simple(x)
    case Call(_, _) => false
  }

  predicate HasGroup(e: Expr)
  {
    match e
    case Leaf(_) => false
    case Binary(_, l, r) => HasGroup(l) || HasGroup(r)
    case Group(_) => true
    case Call(_, _) => false
  }

  /** The operators of the expression's right spine, which wait on the stack after its
      tokens: outermost first. */
  function Pending(e: Expr): seq<Token>
  {
    if e.Binary? then [OpToken(e.op)] + Pending(e.right) else []
  }

  /** What reaches the output while the expression's tokens are read. */
  function Emitted(e: Expr): seq<Token>
  {
    if e.Binary? then Postfix(e.left) + Emitted(e.right) else Postfix(e)
  }

  /** Every token is an infix operator of precedence at least `level`. */
  predicate AllAtLeast(p: seq<Token>, level: nat)
  {
    forall t | t in p :: t.kind == OpIn && t.subtype == Plain && Precedence(t.value) >= level
  }

  /** The top of the stack stops an operator of precedence below `level` from popping
      further: it is no infix operator, or one binding less tightly. */
  predicate Barrier(v: Version, ops: seq<Token>, level: nat)
  {
    ops == [] || Last(ops).kind != OpIn
    || (Precedence(Last(ops).value) < level && (v == Corrected || PrecedenceAsWritten(Last(ops).value).Some?))
  }

  lemma {:induction false} ReversedAppend(a: seq<Token>, b: seq<Token>)
    ensures Reversed(a + b) == Reversed(b) + Reversed(a)
    decreases |b|
  {
    if b == [] {
      assert a + b == a;
    } else {
      assert Last(a + b) == Last(b) && Pop(a + b) == a + Pop(b);
      ReversedAppend(a, Pop(b));
    }
  }

  lemma {:induction false} ReversedOne(t: Token)
    ensures Reversed([t]) == [t]
  {
    assert Pop([t]) == [];
  }

  lemma {:induction false} PendingLevels(e: Expr)
    requires Parsed(e)
    ensures AllAtLeast(Pending(e), Level(e))
    decreases e
  {
    if e.Binary? {
      PendingLevels(e.right);
      var p := Pending(e);
      forall t | t in p
        ensures t.kind == OpIn && t.subtype == Plain && Precedence(t.value) >= Level(e)
      {
        assert t == OpToken(e.op) || t in Pending(e.right);
      }
    }
  }

  lemma {:induction false} EmittedPending(e: Expr)
    ensures Emitted(e) + Reversed(Pending(e)) == Postfix(e)
    decreases e
  {
    if e.Binary? {
      EmittedPending(e.right);
      ReversedAppend([OpToken(e.op)], Pending(e.right));
      ReversedOne(OpToken(e.op));
    } else {
      assert Reversed([]) == [];
    }
  }

  /** Every token is an operator the precedence dictionary holds (always so once corrected). */
  predicate Known(v: Version, p: seq<Token>)
  {
    v == Corrected || forall t | t in p :: PrecedenceAsWritten(t.value).Some?
  }

  lemma {:induction false} PendingKnown(v: Version, e: Expr)
    requires v == AsWritten ==> Simple(e)
    ensures Known(v, Pending(e))
    decreases e
  {
    if v == AsWritten && e.Binary? {
      PendingKnown(v, e.right);
      var p := Pending(e);
      forall t | t in p
        ensures PrecedenceAsWritten(t.value).Some?
      {
        assert t == OpToken(e.op) || t in Pending(e.right);
      }
    }
  }

  lemma {:induction false} PopKeeps(p: seq<Token>, v: Version, level: nat)
    requires p != [] && AllAtLeast(p, level) && Known(v, p)
    ensures AllAtLeast(Pop(p), level) && Known(v, Pop(p))
    ensures Last(p) in p
  {
    forall t | t in Pop(p)
      ensures t in p
    {
    }
  }

  lemma {:induction false} BumpBarrier(v: Version, ops: seq<Token>, level: nat)
    requires Barrier(v, ops, level)
    ensures Barrier(v, Bump(ops), level)
  {
  }

  /** One turn of the popping loop: an infix operator on top that binds at least as tightly
      goes to the output. */
  lemma {:induction false} PopHigherPops(v: Version, out: seq<Token>, ops: seq<Token>, op: string)
    requires ops != [] && Last(ops).kind == OpIn
    requires Lookup(v, Last(ops).value).Ok? && Lookup(v, op).Ok?
    requires Precedence(Last(ops).value) >= Precedence(op)
    ensures PopHigher(v, out, ops, op) == PopHigher(v, out + [Last(ops)], Pop(ops), op)
  {
  }

  /** The loop stops at a token that is no infix operator or binds less tightly. */
  lemma {:induction false} PopHigherStops(v: Version, out: seq<Token>, ops: seq<Token>, op: string)
    requires Barrier(v, ops, Precedence(op)) && Lookup(v, op).Ok?
    ensures PopHigher(v, out, ops, op) == Ok(Shunt(out, ops))
  {
  }

  /** The operators waiting above `base`, all binding at least as tightly as `op`, are popped
      top first, and the loop stops at `base`. */
  lemma {:induction false} PopHigherAll(v: Version, out: seq<Token>, base: seq<Token>, p: seq<Token>, op: string)
    requires AllAtLeast(p, Precedence(op)) && Known(v, p) && Lookup(v, op).Ok?
    requires Barrier(v, base, Precedence(op))
    ensures PopHigher(v, out, base + p, op) == Ok(Shunt(out + Reversed(p), base))
    decreases |p|
  {
    if p == [] {
      assert base + p == base;
      assert out + Reversed(p) == out;
      PopHigherStops(v, out, base, op);
    } else {
      PopKeeps(p, v, Precedence(op));
      var t := Last(p);
      assert Last(base + p) == t && Pop(base + p) == base + Pop(p);
      assert Lookup(v, t.value).Ok?;
      PopHigherPops(v, out, base + p, op);
      PopHigherAll(v, out + [t], base, Pop(p), op);
      assert Reversed(p) == [t] + Reversed(Pop(p));
      Text.AppendAssoc(out, [t], Reversed(Pop(p)));
    }
  }

  /** A closing bracket pops the operators waiting above its opening token. */
  lemma {:induction false} PopToOpenAll(out: seq<Token>, base: seq<Token>, p: seq<Token>)
    requires AllAtLeast(p, 0) && base != [] && Last(base).subtype == Open
    ensures PopToOpen(out, base + p) == Shunt(out + Reversed(p), base)
    ensures PopToOpener(out, base + p) == Shunt(out + Reversed(p), base)
    decreases |p|
  {
    if p == [] {
      assert base + p == base;
      assert out + Reversed(p) == out;
    } else {
      PopKeeps(p, Corrected, 0);
      assert Last(base + p) == Last(p) && Pop(base + p) == base + Pop(p);
      PopToOpenAll(out + [Last(p)], base, Pop(p));
    }
  }

  lemma {:induction false} RunOne(v: Version, s: Shunt, t: Token)
    ensures Run(v, s, [t]) == Step(v, s, t)
  {
    assert [t][1..] == [];
  }

  lemma {:induction false} RunThen(v: Version, s: Shunt, a: seq<Token>, b: seq<Token>, m: Shunt)
    requires Run(v, s, a) == Ok(m)
    ensures Run(v, s, a + b) == Run(v, m, b)
  {
    RunAppend(v, s, a, b);
  }

  lemma {:induction false} StepOperand(v: Version, out: seq<Token>, ops: seq<Token>, t: Token)
    requires IsOperandToken(t)
    ensures Step(v, Shunt(out, ops), t) == Ok(Shunt(out + [t], Bump(ops)))
  {
  }

  lemma {:induction false} StepInfix(v: Version, out: seq<Token>, base: seq<Token>, p: seq<Token>, op: string)
    requires AllAtLeast(p, Precedence(op)) && Known(v, p) && Lookup(v, op).Ok?
    requires Barrier(v, base, Precedence(op))
    ensures Step(v, Shunt(out, base + p), OpToken(op)) == Ok(Shunt(out + Reversed(p), base + [OpToken(op)]))
  {
    PopHigherAll(v, out, base, p, op);
  }

  lemma {:induction false} StepParenOpen(v: Version, out: seq<Token>, ops: seq<Token>)
    requires v == Corrected || ops == [] || Last(ops).kind != Func
    ensures Step(v, Shunt(out, ops), OpenParen) == Ok(Shunt(out, Bump(ops) + [OpenParen]))
  {
  }

  lemma {:induction false} StepParenClose(v: Version, out: seq<Token>, base: seq<Token>, p: seq<Token>)
    requires AllAtLeast(p, 0)
    requires v == Corrected || base == [] || Last(base).kind != Func
    ensures Step(v, Shunt(out, base + [OpenParen] + p), CloseParen) == Ok(Shunt(out + Reversed(p), base))
  {
    PopToOpenAll(out, base + [OpenParen], p);
    assert Pop(base + [OpenParen]) == base;
  }

  lemma {:induction false} DropParen(name: string)
    ensures DropLast(name + "(") == name
  {
  }

  lemma {:induction false} StepFuncOpen(out: seq<Token>, ops: seq<Token>, name: string)
    ensures Step(Corrected, Shunt(out, ops), Token(name + "(", Func, Open, 0))
            == Ok(Shunt(out, Bump(ops) + [FuncToken(name, 0)]))
  {
    DropParen(name);
  }

  lemma {:induction false} StepFuncClose(v: Version, out: seq<Token>, base: seq<Token>, f: Token, p: seq<Token>)
    requires AllAtLeast(p, 0) && f.kind == Func && f.subtype == Open
    ensures Step(v, Shunt(out, base + [f] + p), FuncClose) == Ok(Shunt(out + Reversed(p) + [f], base))
  {
    PopToOpenAll(out, base + [f], p);
    assert Pop(base + [f]) == base;
  }

  lemma {:induction false} StepComma(out: seq<Token>, base: seq<Token>, f: Token, p: seq<Token>)
    requires AllAtLeast(p, 0) && f.kind == Func && f.subtype == Open
    ensures Step(Corrected, Shunt(out, base + [f] + p), Comma) == Ok(Shunt(out + Reversed(p), base + [f]))
  {
    PopToOpenAll(out, base + [f], p);
  }

  lemma {:induction false} AllAtLeastWeaken(p: seq<Token>, level: nat, lower: nat)
    requires AllAtLeast(p, level) && lower <= level
    ensures AllAtLeast(p, lower)
  {
  }

  /** An infix operator between two operands: the left one's waiting operators are popped
      and the operator waits in their place above the right one's. */
  lemma {:induction false} BinaryRun(v: Version, op: string, lToks: seq<Token>, lEmitted: seq<Token>, lPending: seq<Token>,
                  lPostfix: seq<Token>, rToks: seq<Token>, rEmitted: seq<Token>, rPending: seq<Token>,
                  out: seq<Token>, ops: seq<Token>)
    requires AllAtLeast(lPending, Precedence(op)) && Known(v, lPending) && Lookup(v, op).Ok?
    requires Barrier(v, ops, Precedence(op)) && lEmitted + Reversed(lPending) == lPostfix
    requires Run(v, Shunt(out, ops), lToks) == Ok(Shunt(out + lEmitted, Bump(ops) + lPending))
    requires Run(v, Shunt(out + lPostfix, Bump(ops) + [OpToken(op)]), rToks)
             == Ok(Shunt(out + lPostfix + rEmitted, Bump(ops) + [OpToken(op)] + rPending))
    ensures Run(v, Shunt(out, ops), lToks + [OpToken(op)] + rToks)
            == Ok(Shunt(out + (lPostfix + rEmitted), Bump(ops) + ([OpToken(op)] + rPending)))
  {
    var s1 := Shunt(out + lEmitted, Bump(ops) + lPending);
    BumpBarrier(v, ops, Precedence(op));
    StepInfix(v, out + lEmitted, Bump(ops), lPending, op);
    var ops2 := Bump(ops) + [OpToken(op)];
    var s2 := Shunt(out + lPostfix, ops2);
    Text.AppendAssoc(out, lEmitted, Reversed(lPending));
    RunOne(v, s1, OpToken(op));
    RunThen(v, Shunt(out, ops), lToks, [OpToken(op)], s1);
    RunThen(v, Shunt(out, ops), lToks + [OpToken(op)], rToks, s2);
    Text.AppendAssoc(out, lPostfix, rEmitted);
    Text.AppendAssoc(Bump(ops), [OpToken(op)], rPending);
  }

  /** A parenthesised expression: its waiting operators are popped at the closing
      parenthesis. */
  lemma {:induction false} GroupRun(v: Version, xToks: seq<Token>, xEmitted: seq<Token>, xPending: seq<Token>,
                 xPostfix: seq<Token>, out: seq<Token>, ops: seq<Token>)
    requires AllAtLeast(xPending, 0) && xEmitted + Reversed(xPending) == xPostfix
    requires v == AsWritten ==> ops == [] || Last(ops).kind != Func
    requires Run(v, Shunt(out, Bump(ops) + [OpenParen]), xToks)
             == Ok(Shunt(out + xEmitted, Bump(ops) + [OpenParen] + xPending))
    ensures Run(v, Shunt(out, ops), [OpenParen] + xToks + [CloseParen]) == Ok(Shunt(out + xPostfix, Bump(ops)))
  {
    StepParenOpen(v, out, ops);
    var ops1 := Bump(ops) + [OpenParen];
    var s1 := Shunt(out + xEmitted, ops1 + xPending);
    RunOne(v, Shunt(out, ops), OpenParen);
    RunThen(v, Shunt(out, ops), [OpenParen], xToks, Shunt(out, ops1));
    StepParenClose(v, out + xEmitted, Bump(ops), xPending);
    Text.AppendAssoc(out, xEmitted, Reversed(xPending));
    RunOne(v, s1, CloseParen);
    RunThen(v, Shunt(out, ops), [OpenParen] + xToks, [CloseParen], s1);
  }

  /** A function call: the function waits on the stack while its arguments are read. */
  lemma {:induction false} CallRun(name: string, argToks: seq<Token>, argOut: seq<Token>, n: nat, out: seq<Token>, ops: seq<Token>)
    requires Run(Corrected, Shunt(out, Bump(ops) + [FuncToken(name, 0)]), argToks)
             == Ok(Shunt(out + argOut + [FuncToken(name, n)], Bump(ops)))
    ensures Run(Corrected, Shunt(out, ops), [Token(name + "(", Func, Open, 0)] + argToks)
            == Ok(Shunt(out + (argOut + [FuncToken(name, n)]), Bump(ops)))
  {
    StepFuncOpen(out, ops, name);
    RunOne(Corrected, Shunt(out, ops), Token(name + "(", Func, Open, 0));
    RunThen(Corrected, Shunt(out, ops), [Token(name + "(", Func, Open, 0)], argToks,
            Shunt(out, Bump(ops) + [FuncToken(name, 0)]));
    Text.AppendAssoc(out, argOut, [FuncToken(name, n)]);
  }

  /** The conclusion of `RunInfix`, one expression at a time. */
  predicate Reads(v: Version, e: Expr, out: seq<Token>, ops: seq<Token>)
  {
    Run(v, Shunt(out, ops), Infix(e)) == Ok(Shunt(out + Emitted(e), Bump(ops) + Pending(e)))
  }

  lemma {:induction false} LeafReads(v: Version, e: Expr, out: seq<Token>, ops: seq<Token>)
    requires e.Leaf? && IsOperandToken(e.t)
    ensures Reads(v, e, out, ops)
  {
    StepOperand(v, out, ops, e.t);
    RunOne(v, Shunt(out, ops), e.t);
    assert Infix(e) == [e.t] && Emitted(e) == [e.t] && Pending(e) == [];
    assert Bump(ops) + [] == Bump(ops);
  }

  lemma {:induction false} BinaryReads(v: Version, e: Expr, out: seq<Token>, ops: seq<Token>)
    requires e.Binary? && Parsed(e) && Barrier(v, ops, Level(e)) && (v == AsWritten ==> Simple(e))
    requires Reads(v, e.left, out, ops)
    requires Reads(v, e.right, out + Postfix(e.left), Bump(ops) + [OpToken(e.op)])
    ensures Reads(v, e, out, ops)
  {
    var l, r, op := e.left, e.right, e.op;
    var ops2 := Bump(ops) + [OpToken(op)];
    assert Bump(ops2) == ops2;
    PendingLevels(l);
    AllAtLeastWeaken(Pending(l), Level(l), Precedence(op));
    PendingKnown(v, l);
    EmittedPending(l);
    BinaryRun(v, op, Infix(l), Emitted(l), Pending(l), Postfix(l), Infix(r), Emitted(r), Pending(r), out, ops);
    assert Infix(e) == Infix(l) + [OpToken(op)] + Infix(r);
    assert Emitted(e) == Postfix(l) + Emitted(r);
    assert Pending(e) == [OpToken(op)] + Pending(r);
  }

  lemma {:induction false} GroupReads(v: Version, e: Expr, out: seq<Token>, ops: seq<Token>)
    requires e.Group? && Parsed(e.inner)
    requires v == AsWritten ==> ops == [] || Last(ops).kind != Func
    requires Reads(v, e.inner, out, Bump(ops) + [OpenParen])
    ensures Reads(v, e, out, ops)
  {
    var x := e.inner;
    var ops1 := Bump(ops) + [OpenParen];
    assert Bump(ops1) == ops1;
    PendingLevels(x);
    AllAtLeastWeaken(Pending(x), Level(x), 0);
    EmittedPending(x);
    GroupRun(v, Infix(x), Emitted(x), Pending(x), Postfix(x), out, ops);
    assert Infix(e) == [OpenParen] + Infix(x) + [CloseParen];
    assert Emitted(e) == Postfix(x) && Pending(e) == [];
    assert Bump(ops) + [] == Bump(ops);
  }

  lemma {:induction false} CallReads(e: Expr, out: seq<Token>, ops: seq<Token>)
    requires e.Call?
    requires Run(Corrected, Shunt(out, Bump(ops) + [FuncToken(e.name, 0)]), ArgTokens(e.args))
             == Ok(Shunt(out + ArgPostfix(e.args) + [FuncToken(e.name, 0 + |e.args|)], Bump(ops)))
    ensures Reads(Corrected, e, out, ops)
  {
    CallRun(e.name, ArgTokens(e.args), ArgPostfix(e.args), |e.args|, out, ops);
    assert Infix(e) == [Token(e.name + "(", Func, Open, 0)] + ArgTokens(e.args);
    assert Emitted(e) == ArgPostfix(e.args) + [FuncToken(e.name, |e.args|)] && Pending(e) == [];
    assert Bump(ops) + [] == Bump(ops);
  }

  /** Reading an expression's tokens emits all of it but its right spine's operators, which
      wait on the stack above whatever was there; an operand or opening bracket first counts
      as an argument of a function on top. */
  lemma {:induction false} RunInfix(v: Version, e: Expr, out: seq<Token>, ops: seq<Token>)
    requires Parsed(e) && Barrier(v, ops, Level(e))
    requires v == AsWritten ==> Simple(e) && (HasGroup(e) ==> ops == [] || Last(ops).kind != Func)
    ensures Reads(v, e, out, ops)
    decreases e
  {
    if e.Leaf? {
      LeafReads(v, e, out, ops);
    } else if e.Binary? {
      RunInfix(v, e.left, out, ops);
      RunInfix(v, e.right, out + Postfix(e.left), Bump(ops) + [OpToken(e.op)]);
      BinaryReads(v, e, out, ops);
    } else if e.Group? {
      RunInfix(v, e.inner, out, Bump(ops) + [OpenParen]);
      GroupReads(v, e, out, ops);
    } else {
      RunArgs(e.name, e.args, 0, out, Bump(ops));
      assert ArgsRead(e.name, e.args, 0, out, Bump(ops));
      CallReads(e, out, ops);
    }
  }

  /** The last argument: its waiting operators and then the function are popped. */
  lemma {:induction false} LastArgRun(aToks: seq<Token>, aEmitted: seq<Token>, aPending: seq<Token>, aPostfix: seq<Token>,
                   f: Token, g: Token, out: seq<Token>, base: seq<Token>)
    requires AllAtLeast(aPending, 0) && aEmitted + Reversed(aPending) == aPostfix
    requires g.kind == Func && g.subtype == Open
    requires Run(Corrected, Shunt(out, base + [f]), aToks) == Ok(Shunt(out + aEmitted, base + [g] + aPending))
    ensures Run(Corrected, Shunt(out, base + [f]), aToks + [FuncClose]) == Ok(Shunt(out + aPostfix + [g], base))
  {
    var s1 := Shunt(out + aEmitted, base + [g] + aPending);
    Text.AppendAssoc(out, aEmitted, Reversed(aPending));
    StepFuncClose(Corrected, out + aEmitted, base, g, aPending);
    RunOne(Corrected, s1, FuncClose);
    RunThen(Corrected, Shunt(out, base + [f]), aToks, [FuncClose], s1);
  }

  /** An argument followed by a comma: its waiting operators are popped and the function
      stays on top. */
  lemma {:induction false} ArgRun(aToks: seq<Token>, aEmitted: seq<Token>, aPending: seq<Token>, aPostfix: seq<Token>,
               f: Token, g: Token, out: seq<Token>, base: seq<Token>)
    requires AllAtLeast(aPending, 0) && aEmitted + Reversed(aPending) == aPostfix
    requires g.kind == Func && g.subtype == Open
    requires Run(Corrected, Shunt(out, base + [f]), aToks) == Ok(Shunt(out + aEmitted, base + [g] + aPending))
    ensures Run(Corrected, Shunt(out, base + [f]), aToks + [Comma]) == Ok(Shunt(out + aPostfix, base + [g]))
  {
    var s1 := Shunt(out + aEmitted, base + [g] + aPending);
    Text.AppendAssoc(out, aEmitted, Reversed(aPending));
    StepComma(out + aEmitted, base, g, aPending);
    RunOne(Corrected, s1, Comma);
    RunThen(Corrected, Shunt(out, base + [f]), aToks, [Comma], s1);
  }

  /** The conclusion of `RunArgs`. */
  predicate ArgsRead(name: string, args: seq<Expr>, k: nat, out: seq<Token>, base: seq<Token>)
  {
    Run(Corrected, Shunt(out, base + [FuncToken(name, k)]), ArgTokens(args))
    == Ok(Shunt(out + ArgPostfix(args) + [FuncToken(name, k + |args|)], base))
  }

  lemma {:induction false} NoArgsRead(name: string, args: seq<Expr>, k: nat, out: seq<Token>, base: seq<Token>)
    requires args == []
    ensures ArgsRead(name, args, k, out, base)
  {
    var f := FuncToken(name, k);
    StepFuncClose(Corrected, out, base, f, []);
    RunOne(Corrected, Shunt(out, base + [f]), FuncClose);
    assert ArgTokens(args) == [FuncClose] && ArgPostfix(args) == [];
    assert out + [] + [f] == out + [f];
  }

  lemma {:induction false} LastArgRead(name: string, args: seq<Expr>, k: nat, out: seq<Token>, base: seq<Token>)
    requires |args| == 1 && Parsed(args[0])
    requires Reads(Corrected, args[0], out, base + [FuncToken(name, k)])
    ensures ArgsRead(name, args, k, out, base)
  {
    var a := args[0];
    var f := FuncToken(name, k);
    var g := FuncToken(name, k + 1);
    assert Bump(base + [f]) == base + [g];
    PendingLevels(a);
    AllAtLeastWeaken(Pending(a), Level(a), 0);
    EmittedPending(a);
    LastArgRun(Infix(a), Emitted(a), Pending(a), Postfix(a), f, g, out, base);
    assert ArgTokens(args) == Infix(a) + [FuncClose];
    assert ArgPostfix(args) == Postfix(a) by {
      assert args[1..] == [];
      assert Postfix(a) + [] == Postfix(a);
    }
  }

  lemma {:induction false} MoreArgsRead(name: string, args: seq<Expr>, k: nat, out: seq<Token>, base: seq<Token>)
    requires |args| > 1 && Parsed(args[0])
    requires Reads(Corrected, args[0], out, base + [FuncToken(name, k)])
    requires ArgsRead(name, args[1..], k + 1, out + Postfix(args[0]), base)
    ensures ArgsRead(name, args, k, out, base)
  {
    var a := args[0];
    var f := FuncToken(name, k);
    var g := FuncToken(name, k + 1);
    ArgHeadRead(name, a, k, out, base);
    var tail, post := ArgTokens(args[1..]), ArgPostfix(args[1..]);
    RunThen(Corrected, Shunt(out, base + [f]), Infix(a) + [Comma], tail, Shunt(out + Postfix(a), base + [g]));
    MoreArgsShape(args);
    Text.AppendAssoc(out, Postfix(a), post);
    assert k + 1 + |args[1..]| == k + |args|;
  }

  /** An argument followed by a comma emits the argument in postfix and counts it. */
  lemma ArgHeadRead(name: string, a: Expr, k: nat, out: seq<Token>, base: seq<Token>)
    requires Parsed(a) && Reads(Corrected, a, out, base + [FuncToken(name, k)])
    ensures Run(Corrected, Shunt(out, base + [FuncToken(name, k)]), Infix(a) + [Comma])
         == Ok(Shunt(out + Postfix(a), base + [FuncToken(name, k + 1)]))
  {
    var f := FuncToken(name, k);
    var g := FuncToken(name, k + 1);
    assert Bump(base + [f]) == base + [g];
    PendingLevels(a);
    AllAtLeastWeaken(Pending(a), Level(a), 0);
    EmittedPending(a);
    ArgRun(Infix(a), Emitted(a), Pending(a), Postfix(a), f, g, out, base);
  }

  lemma {:induction false} MoreArgsShape(args: seq<Expr>)
    requires |args| > 1
    ensures ArgTokens(args) == Infix(args[0]) + [Comma] + ArgTokens(args[1..])
    ensures ArgPostfix(args) == Postfix(args[0]) + ArgPostfix(args[1..])
  {
  }

  /** Reading a call's arguments and its closing parenthesis emits the arguments in postfix,
      then the function with its count raised by the number of arguments. */
  lemma {:induction false} RunArgs(name: string, args: seq<Expr>, k: nat, out: seq<Token>, base: seq<Token>)
    requires ParsedArgs(args)
    ensures ArgsRead(name, args, k, out, base)
    decreases args
  {
    if args == [] {
      NoArgsRead(name, args, k, out, base);
    } else {
      RunInfix(Corrected, args[0], out, base + [FuncToken(name, k)]);
      if |args| == 1 {
        LastArgRead(name, args, k, out, base);
      } else {
        RunArgs(name, args[1..], k + 1, out + Postfix(args[0]), base);
        MoreArgsRead(name, args, k, out, base);
      }
    }
  }

  /** The corrected conversion turns the tokens of every expression into its reverse Polish
      notation. */
  lemma {:induction false} RpnCorrect(e: Expr)
    requires Parsed(e)
    ensures Rpn(Corrected, Infix(e)) == Ok(Postfix(e))
  {
    RunInfix(Corrected, e, [], []);
    assert Run(Corrected, Shunt([], []), Infix(e)) == Ok(Shunt([] + Emitted(e), Bump([]) + Pending(e)));
    assert [] + Emitted(e) == Emitted(e);
    assert Bump([]) + Pending(e) == Pending(e);
    assert Run(Corrected, Shunt([], []), Infix(e)) == Ok(Shunt(Emitted(e), Pending(e)));
    EmittedPending(e);
  }

  /** The code as written does so as well for expressions with no function call and no
      operator outside the precedence dictionary. */
  lemma {:induction false} RpnAsWrittenSimple(e: Expr)
    requires Parsed(e) && Simple(e)
    ensures Rpn(AsWritten, Infix(e)) == Ok(Postfix(e))
  {
    RunInfix(AsWritten, e, [], []);
    assert Run(AsWritten, Shunt([], []), Infix(e)) == Ok(Shunt([] + Emitted(e), Bump([]) + Pending(e)));
    assert [] + Emitted(e) == Emitted(e);
    assert Bump([]) + Pending(e) == Pending(e);
    assert Run(AsWritten, Shunt([], []), Infix(e)) == Ok(Shunt(Emitted(e), Pending(e)));
    EmittedPending(e);
  }

  // ---------------------------------------------------------------------------------------
  // The code as written, on small inputs. Operands are arbitrary operand tokens.

  lemma {:induction false} RunPrefix(v: Version, s: Shunt, t: Token, rest: seq<Token>, m: Shunt)
    requires Step(v, s, t) == Ok(m)
    ensures Run(v, s, [t] + rest) == Run(v, m, rest)
  {
    assert ([t] + rest)[0] == t && ([t] + rest)[1..] == rest;
  }

  lemma {:induction false} RunStops(v: Version, s: Shunt, a: seq<Token>, b: seq<Token>)
    requires Run(v, s, a).Err?
    ensures Run(v, s, a + b) == Run(v, s, a)
  {
    RunAppend(v, s, a, b);
  }

  lemma {:induction false} StepFuncOpenAsWritten(out: seq<Token>, ops: seq<Token>, name: string)
    ensures Step(AsWritten, Shunt(out, ops), Token(name + "(", Func, Open, 0))
            == Ok(Shunt(out, ops + [FuncToken(name, 0)]))
  {
    DropParen(name);
  }

  lemma {:induction false} StepParenOpenAsWritten(out: seq<Token>, ops: seq<Token>)
    ensures Step(AsWritten, Shunt(out, ops), OpenParen) == Ok(Shunt(out, ops + [OpenParen]))
  {
  }

  /** As written, a separator pops one operator unless a function is on top. */
  lemma {:induction false} StepSepAsWritten(out: seq<Token>, ops: seq<Token>)
    ensures Step(AsWritten, Shunt(out, ops), Comma)
            == if ops != [] && Last(ops).kind != Func then Ok(Shunt(out + [Last(ops)], Pop(ops)))
               else Ok(Shunt(out, ops))
  {
  }

  lemma {:induction false} RunFuncOpenAsWritten(out: seq<Token>, ops: seq<Token>, name: string, rest: seq<Token>)
    ensures Run(AsWritten, Shunt(out, ops), [Token(name + "(", Func, Open, 0)] + rest)
            == Run(AsWritten, Shunt(out, ops + [FuncToken(name, 0)]), rest)
  {
    StepFuncOpenAsWritten(out, ops, name);
    RunPrefix(AsWritten, Shunt(out, ops), Token(name + "(", Func, Open, 0), rest, Shunt(out, ops + [FuncToken(name, 0)]));
  }

  lemma {:induction false} RunOperand(v: Version, out: seq<Token>, ops: seq<Token>, t: Token, rest: seq<Token>)
    requires IsOperandToken(t)
    ensures Run(v, Shunt(out, ops), [t] + rest) == Run(v, Shunt(out + [t], Bump(ops)), rest)
  {
    StepOperand(v, out, ops, t);
    RunPrefix(v, Shunt(out, ops), t, rest, Shunt(out + [t], Bump(ops)));
  }

  /** As written, a separator with an operator on top pops that one operator. */
  lemma {:induction false} RunSepPops(out: seq<Token>, ops: seq<Token>, top: Token, rest: seq<Token>)
    requires top.kind != Func
    ensures Run(AsWritten, Shunt(out, ops + [top]), [Comma] + rest) == Run(AsWritten, Shunt(out + [top], ops), rest)
  {
    StepSepAsWritten(out, ops + [top]);
    assert Last(ops + [top]) == top && Pop(ops + [top]) == ops;
    RunPrefix(AsWritten, Shunt(out, ops + [top]), Comma, rest, Shunt(out + [top], ops));
  }

  /** As written, a separator with a function on top does nothing. */
  lemma {:induction false} RunSepKeeps(out: seq<Token>, ops: seq<Token>, rest: seq<Token>)
    requires ops == [] || Last(ops).kind == Func
    ensures Run(AsWritten, Shunt(out, ops), [Comma] + rest) == Run(AsWritten, Shunt(out, ops), rest)
  {
    StepSepAsWritten(out, ops);
    RunPrefix(AsWritten, Shunt(out, ops), Comma, rest, Shunt(out, ops));
  }

  lemma {:induction false} RunFuncClose(v: Version, out: seq<Token>, base: seq<Token>, f: Token, p: seq<Token>, rest: seq<Token>)
    requires AllAtLeast(p, 0) && f.kind == Func && f.subtype == Open
    ensures Run(v, Shunt(out, base + [f] + p), [FuncClose] + rest) == Run(v, Shunt(out + Reversed(p) + [f], base), rest)
  {
    StepFuncClose(v, out, base, f, p);
    RunPrefix(v, Shunt(out, base + [f] + p), FuncClose, rest, Shunt(out + Reversed(p) + [f], base));
  }

  lemma {:induction false} RunParenOpenAsWritten(out: seq<Token>, ops: seq<Token>, rest: seq<Token>)
    ensures Run(AsWritten, Shunt(out, ops), [OpenParen] + rest) == Run(AsWritten, Shunt(out, ops + [OpenParen]), rest)
  {
    StepParenOpenAsWritten(out, ops);
    RunPrefix(AsWritten, Shunt(out, ops), OpenParen, rest, Shunt(out, ops + [OpenParen]));
  }

  /** As written, a closing parenthesis right after its opening one's operand also pops the
      function under the opening one. */
  lemma {:induction false} RunParenClosePopsCall(out: seq<Token>, base: seq<Token>, f: Token, rest: seq<Token>)
    requires f.kind == Func
    ensures Run(AsWritten, Shunt(out, base + [f] + [OpenParen]), [CloseParen] + rest) == Run(AsWritten, Shunt(out + [f], base), rest)
  {
    var ops := base + [f] + [OpenParen];
    assert Last(ops) == OpenParen && Pop(ops) == base + [f];
    assert PopToOpen(out, ops) == Shunt(out, ops);
    assert Last(base + [f]) == f && Pop(base + [f]) == base;
    assert Step(AsWritten, Shunt(out, ops), CloseParen) == Ok(Shunt(out + [f], base));
    RunPrefix(AsWritten, Shunt(out, ops), CloseParen, rest, Shunt(out + [f], base));
  }

  /** An input that ends in state `m` converts to its output followed by its stack, top first. */
  lemma {:induction false} RpnOfRun(v: Version, toks: seq<Token>, m: Shunt)
    requires Run(v, Shunt([], []), toks) == Ok(m)
    ensures Rpn(v, toks) == Ok(m.output + Reversed(m.operators))
  {
  }

  /** A leaf's place in the definitions above. */
  lemma {:induction false} LeafFacts(t: Token)
    requires IsOperandToken(t)
    ensures Parsed(Leaf(t)) && Simple(Leaf(t)) && !HasGroup(Leaf(t)) && Level(Leaf(t)) == 8
    ensures Infix(Leaf(t)) == [t] && Postfix(Leaf(t)) == [t]
    ensures Emitted(Leaf(t)) == [t] && Pending(Leaf(t)) == []
  {
  }

  /** An operator node's place in the definitions above, from its operands'. */
  lemma {:induction false} BinaryFacts(op: string, l: Expr, r: Expr)
    requires Parsed(l) && Parsed(r) && Level(l) >= Precedence(op) && Level(r) > Precedence(op)
    ensures Parsed(Binary(op, l, r)) && Level(Binary(op, l, r)) == Precedence(op)
    ensures Simple(Binary(op, l, r)) <==> PrecedenceAsWritten(op).Some? && Simple(l) && Simple(r)
    ensures HasGroup(Binary(op, l, r)) <==> HasGroup(l) || HasGroup(r)
    ensures Infix(Binary(op, l, r)) == Infix(l) + [OpToken(op)] + Infix(r)
    ensures Postfix(Binary(op, l, r)) == Postfix(l) + Postfix(r) + [OpToken(op)]
    ensures Emitted(Binary(op, l, r)) == Postfix(l) + Emitted(r)
    ensures Pending(Binary(op, l, r)) == [OpToken(op)] + Pending(r)
  {
  }

  lemma {:induction false} GroupFacts(x: Expr)
    ensures Parsed(Group(x)) == Parsed(x) && Level(Group(x)) == 8 && HasGroup(Group(x))
    ensures Infix(Group(x)) == [OpenParen] + Infix(x) + [CloseParen] && Postfix(Group(x)) == Postfix(x)
  {
  }

  lemma {:induction false} CallFacts(name: string, args: seq<Expr>)
    ensures Parsed(Call(name, args)) == ParsedArgs(args) && Level(Call(name, args)) == 8
    ensures Infix(Call(name, args)) == [Token(name + "(", Func, Open, 0)] + ArgTokens(args)
    ensures Postfix(Call(name, args)) == ArgPostfix(args) + [FuncToken(name, |args|)]
  {
  }

  lemma {:induction false} NoArgsFacts()
    ensures ParsedArgs([]) && ArgTokens([]) == [FuncClose] && ArgPostfix([]) == []
  {
  }

  /** Two arguments: their tokens with the comma between them, and their postfix forms. */
  lemma {:induction false} TwoArgsFacts(a0: Expr, a1: Expr)
    ensures ParsedArgs([a0, a1]) == (Parsed(a0) && Parsed(a1))
    ensures ArgTokens([a0, a1]) == Infix(a0) + [Comma] + (Infix(a1) + [FuncClose])
    ensures ArgPostfix([a0, a1]) == Postfix(a0) + Postfix(a1)
  {
    assert [a0, a1][0] == a0 && [a0, a1][1..] == [a1];
    assert [a1][0] == a1 && [a1][1..] == [];
    assert ParsedArgs([]);
    assert ParsedArgs([a1]) == Parsed(a1);
    assert ArgPostfix([a1]) == Postfix(a1) + [];
    assert Postfix(a1) + [] == Postfix(a1);
  }

  /** "a+b×c+d" as a tree, its tokens and its postfix form. */
  lemma {:induction false} LeftTree(a: Token, b: Token, c: Token, d: Token, x: Expr, y: Expr, e: Expr)
    requires IsOperandToken(a) && IsOperandToken(b) && IsOperandToken(c) && IsOperandToken(d)
    requires x == Binary("×", Leaf(b), Leaf(c)) && y == Binary("+", Leaf(a), x) && e == Binary("+", y, Leaf(d))
    ensures Parsed(e) && Simple(e)
    ensures Infix(e) == [a, OpToken("+"), b, OpToken("×"), c, OpToken("+"), d]
    ensures Postfix(e) == [a, b, c, OpToken("×"), OpToken("+"), d, OpToken("+")]
  {
    PrecedenceTable();
    LeafFacts(a); LeafFacts(b); LeafFacts(c); LeafFacts(d);
    BinaryFacts("×", Leaf(b), Leaf(c));
    BinaryFacts("+", Leaf(a), x);
    BinaryFacts("+", y, Leaf(d));
    assert [b] + [OpToken("×")] + [c] == [b, OpToken("×"), c];
    assert [a] + [OpToken("+")] + [b, OpToken("×"), c] == [a, OpToken("+"), b, OpToken("×"), c];
    assert [b] + [c] + [OpToken("×")] == [b, c, OpToken("×")];
    assert [a] + [b, c, OpToken("×")] + [OpToken("+")] == [a, b, c, OpToken("×"), OpToken("+")];
  }

  /** "a+b×c+d" gives a b c × + d +: operators of one precedence group to the left, and a
      tighter one is applied first. */
  lemma {:induction false} LeftAssociativeExample(a: Token, b: Token, c: Token, d: Token, x: Expr, y: Expr, e: Expr)
    requires IsOperandToken(a) && IsOperandToken(b) && IsOperandToken(c) && IsOperandToken(d)
    requires x == Binary("×", Leaf(b), Leaf(c)) && y == Binary("+", Leaf(a), x) && e == Binary("+", y, Leaf(d))
    ensures Infix(e) == [a, OpToken("+"), b, OpToken("×"), c, OpToken("+"), d]
    ensures Rpn(AsWritten, Infix(e)) == Ok([a, b, c, OpToken("×"), OpToken("+"), d, OpToken("+")])
  {
    LeftTree(a, b, c, d, x, y, e);
    RpnAsWrittenSimple(e);
  }

  /** "SUM(a+b×c,d)" as a tree. */
  lemma {:induction false} SeparatorTree(name: string, a: Token, b: Token, c: Token, d: Token, x: Expr, y: Expr, e: Expr)
    requires IsOperandToken(a) && IsOperandToken(b) && IsOperandToken(c) && IsOperandToken(d)
    requires x == Binary("×", Leaf(b), Leaf(c)) && y == Binary("+", Leaf(a), x) && e == Call(name, [y, Leaf(d)])
    ensures Parsed(e) && Parsed(y) && Simple(y) && !HasGroup(y)
    ensures Emitted(y) == [a, b, c] && Pending(y) == [OpToken("+"), OpToken("×")]
    ensures Infix(e) == [Token(name + "(", Func, Open, 0)] + (Infix(y) + ([Comma] + ([d] + [FuncClose])))
    ensures Postfix(e) == [a, b, c, OpToken("×"), OpToken("+"), d, FuncToken(name, 2)]
  {
    PrecedenceTable();
    LeafFacts(a); LeafFacts(b); LeafFacts(c); LeafFacts(d);
    BinaryFacts("×", Leaf(b), Leaf(c));
    BinaryFacts("+", Leaf(a), x);
    CallFacts(name, [y, Leaf(d)]);
    TwoArgsFacts(y, Leaf(d));
    assert [a] + ([b] + [c]) == [a, b, c];
    assert [OpToken("+")] + ([OpToken("×")] + []) == [OpToken("+"), OpToken("×")];
    Text.AppendAssoc(Infix(y), [Comma], [d] + [FuncClose]);
    assert [b] + [c] + [OpToken("×")] == [b, c, OpToken("×")];
    assert [a] + [b, c, OpToken("×")] + [OpToken("+")] == [a, b, c, OpToken("×"), OpToken("+")];
    assert [a, b, c, OpToken("×"), OpToken("+")] + [d] + [FuncToken(name, 2)]
           == [a, b, c, OpToken("×"), OpToken("+"), d, FuncToken(name, 2)];
  }

  /** The rest of that run: the comma pops the top operator only. */
  lemma {:induction false} SeparatorTail(d: Token, out: seq<Token>, f1: Token, plus: Token, times: Token)
    requires IsOperandToken(d) && plus.kind == OpIn && plus.subtype == Plain && times.kind == OpIn
    requires f1.kind == Func && f1.subtype == Open
    ensures Run(AsWritten, Shunt(out, [f1, plus, times]), [Comma] + ([d] + [FuncClose]))
            == Ok(Shunt(out + [times, d, plus, f1], []))
  {
    var ops, rest := [f1, plus], [d] + [FuncClose];
    assert ops + [times] == [f1, plus, times];
    RunSepPops(out, ops, times, rest);
    SeparatorClose(d, out + [times], f1, plus);
    assert out + [times] + [d, plus, f1] == out + [times, d, plus, f1];
  }

  /** After the comma: the last argument and the closing parenthesis. */
  lemma {:induction false} SeparatorClose(d: Token, out: seq<Token>, f1: Token, plus: Token)
    requires IsOperandToken(d) && plus.kind == OpIn && plus.subtype == Plain
    requires f1.kind == Func && f1.subtype == Open
    ensures Run(AsWritten, Shunt(out, [f1, plus]), [d] + [FuncClose]) == Ok(Shunt(out + [d, plus, f1], []))
  {
    RunOperand(AsWritten, out, [f1, plus], d, [FuncClose]);
    assert Bump([f1, plus]) == [f1, plus];
    assert [] + [f1] + [plus] == [f1, plus];
    RunFuncClose(AsWritten, out + [d], [], f1, [plus], []);
    ReversedOne(plus);
    assert out + [d] + [plus] + [f1] == out + [d, plus, f1];
  }

  /** The run of the code as written on "SUM(" y ",d)", where y leaves `out` and two operators
      above the function. */
  lemma {:induction false} SeparatorRun(name: string, d: Token, out: seq<Token>, plus: Token, times: Token, toks: seq<Token>)
    requires IsOperandToken(d) && plus.kind == OpIn && plus.subtype == Plain && times.kind == OpIn
    requires Run(AsWritten, Shunt([], [FuncToken(name, 0)]), toks)
             == Ok(Shunt(out, [FuncToken(name, 1), plus, times]))
    ensures Rpn(AsWritten, [Token(name + "(", Func, Open, 0)] + (toks + ([Comma] + ([d] + [FuncClose]))))
            == Ok(out + [times, d, plus, FuncToken(name, 1)])
  {
    var f0, f1 := FuncToken(name, 0), FuncToken(name, 1);
    var r2 := [Comma] + ([d] + [FuncClose]);
    RunFuncOpenAsWritten([], [], name, toks + r2);
    assert [] + [f0] == [f0];
    RunThen(AsWritten, Shunt([], [f0]), toks, r2, Shunt(out, [f1, plus, times]));
    SeparatorTail(d, out, f1, plus, times);
    RpnOfRun(AsWritten, [Token(name + "(", Func, Open, 0)] + (toks + r2), Shunt(out + [times, d, plus, f1], []));
    assert out + [times, d, plus, f1] + Reversed([]) == out + [times, d, plus, f1];
  }

  /** "SUM(a+b×c,d)": the comma pops only "×", so "+" is applied to b×c and d, and the call
      gets one argument; the corrected pass gives a b c × + d SUM/2. */
  lemma {:induction false} SeparatorPopsOneOperator(name: string, a: Token, b: Token, c: Token, d: Token, x: Expr, y: Expr, e: Expr)
    requires IsOperandToken(a) && IsOperandToken(b) && IsOperandToken(c) && IsOperandToken(d)
    requires x == Binary("×", Leaf(b), Leaf(c)) && y == Binary("+", Leaf(a), x) && e == Call(name, [y, Leaf(d)])
    ensures Rpn(AsWritten, Infix(e)) == Ok([a, b, c, OpToken("×"), d, OpToken("+"), FuncToken(name, 1)])
    ensures Rpn(Corrected, Infix(e)) == Ok([a, b, c, OpToken("×"), OpToken("+"), d, FuncToken(name, 2)])
  {
    var f0 := FuncToken(name, 0);
    SeparatorTree(name, a, b, c, d, x, y, e);
    RunInfix(AsWritten, y, [], [f0]);
    assert Bump([f0]) == [FuncToken(name, 1)];
    assert [] + Emitted(y) == [a, b, c];
    assert [FuncToken(name, 1)] + Pending(y) == [FuncToken(name, 1), OpToken("+"), OpToken("×")];
    SeparatorRun(name, d, [a, b, c], OpToken("+"), OpToken("×"), Infix(y));
    assert [a, b, c] + [OpToken("×"), d, OpToken("+"), FuncToken(name, 1)]
           == [a, b, c, OpToken("×"), d, OpToken("+"), FuncToken(name, 1)];
    RpnCorrect(e);
  }

  /** "SUM(a,F())" as a tree. */
  lemma {:induction false} CallArgumentTree(name: string, inner: string, a: Token, e: Expr)
    requires IsOperandToken(a) && e == Call(name, [Leaf(a), Call(inner, [])])
    ensures Parsed(e)
    ensures Infix(e) == [Token(name + "(", Func, Open, 0), a, Comma, Token(inner + "(", Func, Open, 0), FuncClose, FuncClose]
    ensures Postfix(e) == [a, FuncToken(inner, 0), FuncToken(name, 2)]
  {
    LeafFacts(a);
    NoArgsFacts();
    CallFacts(inner, []);
    CallFacts(name, [Leaf(a), Call(inner, [])]);
    TwoArgsFacts(Leaf(a), Call(inner, []));
    var g := Token(inner + "(", Func, Open, 0);
    assert [g] + [FuncClose] == [g, FuncClose];
    assert [a] + [Comma] + ([g, FuncClose] + [FuncClose]) == [a, Comma, g, FuncClose, FuncClose];
    assert [Token(name + "(", Func, Open, 0)] + [a, Comma, g, FuncClose, FuncClose]
           == [Token(name + "(", Func, Open, 0), a, Comma, g, FuncClose, FuncClose];
    assert [] + [FuncToken(inner, 0)] == [FuncToken(inner, 0)];
    assert [a] + [FuncToken(inner, 0)] + [FuncToken(name, 2)] == [a, FuncToken(inner, 0), FuncToken(name, 2)];
  }

  lemma {:induction false} CallArgumentTail(inner: string, a: Token, f1: Token)
    requires f1.kind == Func && f1.subtype == Open
    ensures Run(AsWritten, Shunt([a], [f1]), [Token(inner + "(", Func, Open, 0)] + ([FuncClose] + [FuncClose]))
            == Ok(Shunt([a, FuncToken(inner, 0), f1], []))
  {
    var g0 := FuncToken(inner, 0);
    RunFuncOpenAsWritten([a], [f1], inner, [FuncClose] + [FuncClose]);
    assert [f1] + [g0] + [] == [f1] + [g0];
    RunFuncClose(AsWritten, [a], [f1], g0, [], [FuncClose]);
    assert [a] + Reversed([]) + [g0] == [a, g0];
    assert [] + [f1] + [] == [f1];
    RunFuncClose(AsWritten, [a, g0], [], f1, [], []);
    assert [a, g0] + Reversed([]) + [f1] == [a, g0, f1];
  }

  lemma {:induction false} CallArgumentRun(name: string, inner: string, a: Token)
    requires IsOperandToken(a)
    ensures Rpn(AsWritten, [Token(name + "(", Func, Open, 0), a, Comma, Token(inner + "(", Func, Open, 0), FuncClose, FuncClose])
            == Ok([a, FuncToken(inner, 0), FuncToken(name, 1)])
  {
    var g := Token(inner + "(", Func, Open, 0);
    var r2 := [g] + ([FuncClose] + [FuncClose]);
    var toks := [Token(name + "(", Func, Open, 0)] + ([a] + ([Comma] + r2));
    assert toks == [Token(name + "(", Func, Open, 0), a, Comma, g, FuncClose, FuncClose];
    CallArgumentShunt(name, inner, a);
    RpnOfRun(AsWritten, toks, Shunt([a, FuncToken(inner, 0), FuncToken(name, 1)], []));
    assert [a, FuncToken(inner, 0), FuncToken(name, 1)] + Reversed([]) == [a, FuncToken(inner, 0), FuncToken(name, 1)];
  }

  lemma {:induction false} CallArgumentShunt(name: string, inner: string, a: Token)
    requires IsOperandToken(a)
    ensures var r2 := [Token(inner + "(", Func, Open, 0)] + ([FuncClose] + [FuncClose]);
            Run(AsWritten, Shunt([], []), [Token(name + "(", Func, Open, 0)] + ([a] + ([Comma] + r2)))
            == Ok(Shunt([a, FuncToken(inner, 0), FuncToken(name, 1)], []))
  {
    var r2 := [Token(inner + "(", Func, Open, 0)] + ([FuncClose] + [FuncClose]);
    var f0, f1 := FuncToken(name, 0), FuncToken(name, 1);
    RunFuncOpenAsWritten([], [], name, [a] + ([Comma] + r2));
    assert Shunt([], [] + [f0]) == Shunt([], [f0]);
    RunOperand(AsWritten, [], [f0], a, [Comma] + r2);
    assert Shunt([] + [a], Bump([f0])) == Shunt([a], [f1]);
    RunSepKeeps([a], [f1], r2);
    CallArgumentTail(inner, a, f1);
  }

  /** "SUM(a,F())": a function call as an argument is not counted, so the outer call gets one
      argument; the corrected pass gives a F/0 SUM/2. */
  lemma {:induction false} CallArgumentNotCounted(name: string, inner: string, a: Token, e: Expr)
    requires IsOperandToken(a) && e == Call(name, [Leaf(a), Call(inner, [])])
    ensures Rpn(AsWritten, Infix(e)) == Ok([a, FuncToken(inner, 0), FuncToken(name, 1)])
    ensures Rpn(Corrected, Infix(e)) == Ok([a, FuncToken(inner, 0), FuncToken(name, 2)])
  {
    CallArgumentTree(name, inner, a, e);
    CallArgumentRun(name, inner, a);
    RpnCorrect(e);
  }

  /** "SUM((a),b)" as a tree. */
  lemma {:induction false} ParenthesisTree(name: string, a: Token, b: Token, e: Expr)
    requires IsOperandToken(a) && IsOperandToken(b) && e == Call(name, [Group(Leaf(a)), Leaf(b)])
    ensures Parsed(e)
    ensures Infix(e) == [Token(name + "(", Func, Open, 0), OpenParen, a, CloseParen, Comma, b, FuncClose]
    ensures Postfix(e) == [a, b, FuncToken(name, 2)]
  {
    LeafFacts(a); LeafFacts(b);
    GroupFacts(Leaf(a));
    CallFacts(name, [Group(Leaf(a)), Leaf(b)]);
    TwoArgsFacts(Group(Leaf(a)), Leaf(b));
    assert [OpenParen] + [a] + [CloseParen] == [OpenParen, a, CloseParen];
    assert [OpenParen, a, CloseParen] + [Comma] + ([b] + [FuncClose]) == [OpenParen, a, CloseParen, Comma, b, FuncClose];
    assert [Token(name + "(", Func, Open, 0)] + [OpenParen, a, CloseParen, Comma, b, FuncClose]
           == [Token(name + "(", Func, Open, 0), OpenParen, a, CloseParen, Comma, b, FuncClose];
    assert [a] + [b] + [FuncToken(name, 2)] == [a, b, FuncToken(name, 2)];
  }

  lemma {:induction false} ParenthesisTail(b: Token, out: seq<Token>)
    requires IsOperandToken(b)
    ensures Run(AsWritten, Shunt(out, []), [Comma] + ([b] + [FuncClose])) == Ok(Shunt(out + [b], []))
  {
    RunSepKeeps(out, [], [b] + [FuncClose]);
    RunOperand(AsWritten, out, [], b, [FuncClose]);
    assert Step(AsWritten, Shunt(out + [b], []), FuncClose) == Ok(Shunt(out + [b], []));
    RunOne(AsWritten, Shunt(out + [b], []), FuncClose);
  }

  lemma {:induction false} ParenthesisHead(name: string, a: Token, rest: seq<Token>)
    requires IsOperandToken(a)
    ensures Run(AsWritten, Shunt([], []), [Token(name + "(", Func, Open, 0)] + ([OpenParen] + ([a] + ([CloseParen] + rest))))
            == Run(AsWritten, Shunt([a] + [FuncToken(name, 0)], []), rest)
  {
    var f0 := FuncToken(name, 0);
    RunFuncOpenAsWritten([], [], name, [OpenParen] + ([a] + ([CloseParen] + rest)));
    assert [] + [f0] == [f0];
    RunParenOpenAsWritten([], [f0], [a] + ([CloseParen] + rest));
    RunOperand(AsWritten, [], [f0] + [OpenParen], a, [CloseParen] + rest);
    assert [] + [a] == [a];
    assert Bump([f0] + [OpenParen]) == [f0] + [OpenParen];
    assert [] + [f0] + [OpenParen] == [f0] + [OpenParen];
    RunParenClosePopsCall([a], [], f0, rest);
  }

  lemma {:induction false} ParenthesisRun(name: string, a: Token, b: Token)
    requires IsOperandToken(a) && IsOperandToken(b)
    ensures Rpn(AsWritten, [Token(name + "(", Func, Open, 0), OpenParen, a, CloseParen, Comma, b, FuncClose])
            == Ok([a, FuncToken(name, 0), b])
  {
    var f0 := FuncToken(name, 0);
    var r4 := [Comma] + ([b] + [FuncClose]);
    var toks := [Token(name + "(", Func, Open, 0)] + ([OpenParen] + ([a] + ([CloseParen] + r4)));
    assert toks == [Token(name + "(", Func, Open, 0), OpenParen, a, CloseParen, Comma, b, FuncClose];
    ParenthesisHead(name, a, r4);
    ParenthesisTail(b, [a] + [f0]);
    assert [a] + [f0] + [b] == [a, f0, b];
    RpnOfRun(AsWritten, toks, Shunt([a, f0, b], []));
    assert [a, f0, b] + Reversed([]) == [a, f0, b];
  }

  /** "SUM((a),b)": the closing parenthesis also pops the function under it, which leaves the
      call with no argument before b; the corrected pass gives a b SUM/2. */
  lemma {:induction false} ParenthesisClosesCall(name: string, a: Token, b: Token, e: Expr)
    requires IsOperandToken(a) && IsOperandToken(b) && e == Call(name, [Group(Leaf(a)), Leaf(b)])
    ensures Rpn(AsWritten, Infix(e)) == Ok([a, FuncToken(name, 0), b])
    ensures Rpn(Corrected, Infix(e)) == Ok([a, b, FuncToken(name, 2)])
  {
    ParenthesisTree(name, a, b, e);
    ParenthesisRun(name, a, b);
    RpnCorrect(e);
  }

  /** "a+b>c" as a tree. */
  lemma {:induction false} ComparisonTree(a: Token, b: Token, c: Token, l: Expr, e: Expr)
    requires IsOperandToken(a) && IsOperandToken(b) && IsOperandToken(c)
    requires l == Binary("+", Leaf(a), Leaf(b)) && e == Binary(">", l, Leaf(c))
    ensures Parsed(e) && Parsed(l) && Simple(l) && !HasGroup(l)
    ensures Emitted(l) == [a, b] && Pending(l) == [OpToken("+")]
    ensures Infix(e) == Infix(l) + [OpToken(">")] + [c]
    ensures Postfix(e) == [a, b, OpToken("+"), c, OpToken(">")]
  {
    PrecedenceTable();
    LeafFacts(a); LeafFacts(b); LeafFacts(c);
    BinaryFacts("+", Leaf(a), Leaf(b));
    BinaryFacts(">", l, Leaf(c));
    assert [a] + [b] == [a, b] && [OpToken("+")] + [] == [OpToken("+")];
    assert [a] + [b] + [OpToken("+")] == [a, b, OpToken("+")];
    assert [a, b, OpToken("+")] + [c] + [OpToken(">")] == [a, b, OpToken("+"), c, OpToken(">")];
  }

  lemma {:induction false} ComparisonRun(a: Token, b: Token, toks: seq<Token>, rest: seq<Token>)
    requires Run(AsWritten, Shunt([], []), toks) == Ok(Shunt([a, b], [OpToken("+")]))
    ensures Rpn(AsWritten, toks + [OpToken(">")] + rest) == Err(KeyError)
  {
    PrecedenceTable();
    var s1 := Shunt([a, b], [OpToken("+")]);
    assert Lookup(AsWritten, ">") == Err(KeyError);
    assert PopHigher(AsWritten, [a, b], [OpToken("+")], ">") == Err(KeyError);
    assert Step(AsWritten, s1, OpToken(">")) == Err(KeyError);
    RunThen(AsWritten, Shunt([], []), toks, [OpToken(">")], s1);
    RunOne(AsWritten, s1, OpToken(">"));
    RunStops(AsWritten, Shunt([], []), toks + [OpToken(">")], rest);
  }

  /** "a+b>c": a comparison meets an operator on the stack and is looked up in the
      precedence dictionary, which does not hold it; the corrected pass gives a b + c >. */
  lemma {:induction false} ComparisonAfterOperatorFails(a: Token, b: Token, c: Token, l: Expr, e: Expr)
    requires IsOperandToken(a) && IsOperandToken(b) && IsOperandToken(c)
    requires l == Binary("+", Leaf(a), Leaf(b)) && e == Binary(">", l, Leaf(c))
    ensures Rpn(AsWritten, Infix(e)) == Err(KeyError)
    ensures Rpn(Corrected, Infix(e)) == Ok([a, b, OpToken("+"), c, OpToken(">")])
  {
    ComparisonTree(a, b, c, l, e);
    RunInfix(AsWritten, l, [], []);
    assert [] + Emitted(l) == [a, b] && Bump([]) + Pending(l) == [OpToken("+")];
    ComparisonRun(a, b, Infix(l), [c]);
    RpnCorrect(e);
  }
}
