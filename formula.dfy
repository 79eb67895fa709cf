/** The formula renderer of src/numbers_parser/formula.py. A stored formula is a postfix array
    of AST nodes; `Formula` is a stack machine with one method per node type that pops the
    rendered operands and pushes the rendered result, and `TableFormulas.formula` runs it over
    a formula's nodes and joins what is left on the stack. */
module Formula {
  import opened Outcomes
  import opened Decimal
  import Text
  import NumbersRange
  import A1Notation

  // ---------------------------------------------------------------------------------------
  // Nodes and the node-type table.

  /** The fields of an `ASTNodeArchive` the renderer reads. `nodeType` is the name of the
      node's type. Three fields stand for values computed outside this module: `numberText`
      is `number_to_str` of the stored float, `calendarDate` the (year, month, day) of
      2001-01-01 plus the stored seconds, and `refText` what the model's `node_to_ref`
      renders for a reference node. */
  datatype Node = Node(nodeType: string, numArgs: nat, functionIndex: nat, numRows: nat, numCols: nat,
                       text: string, decimalLow: nat, decimalHigh: nat, numberText: string,
                       tokenBoolean: Option<bool>, boolean: bool, calendarDate: (nat, nat, nat),
                       refText: string)

  /** The `Formula` methods that `NODE_FUNCTION_MAP` names. */
  datatype Handler =
    | Add | Array | Boolean | Concat | Date | Div | Empty | Equals | Function
    | GreaterThan | GreaterThanOrEqual | LessThan | LessThanOrEqual | List | Mul | Negate
    | NotEquals | Number | Percent | Power | Range | String | Sub | Xref

  /** `NODE_FUNCTION_MAP`: a node type absent from the map is unsupported, one mapped to
      None is skipped. */
  const NodeFunctionMap: map<string, Option<Handler>> := map[
    "ADDITION_NODE" := Some(Add),
    "APPEND_WHITESPACE_NODE" := None,
    "ARRAY_NODE" := Some(Array),
    "BEGIN_EMBEDDED_NODE_ARRAY" := None,
    "BOOLEAN_NODE" := Some(Boolean),
    "CELL_REFERENCE_NODE" := Some(Xref),
    "COLON_NODE" := Some(Range),
    "COLON_NODE_WITH_UIDS" := Some(Range),
    "COLON_TRACT_NODE" := Some(Xref),
    "CONCATENATION_NODE" := Some(Concat),
    "DATE_NODE" := Some(Date),
    "DIVISION_NODE" := Some(Div),
    "EMPTY_ARGUMENT_NODE" := Some(Empty),
    "END_THUNK_NODE" := None,
    "EQUAL_TO_NODE" := Some(Equals),
    "FUNCTION_NODE" := Some(Function),
    "GREATER_THAN_NODE" := Some(GreaterThan),
    "GREATER_THAN_OR_EQUAL_TO_NODE" := Some(GreaterThanOrEqual),
    "LESS_THAN_NODE" := Some(LessThan),
    "LESS_THAN_OR_EQUAL_TO_NODE" := Some(LessThanOrEqual),
    "LIST_NODE" := Some(List),
    "MULTIPLICATION_NODE" := Some(Mul),
    "NEGATION_NODE" := Some(Negate),
    "NOT_EQUAL_TO_NODE" := Some(NotEquals),
    "NUMBER_NODE" := Some(Number),
    "PERCENT_NODE" := Some(Percent),
    "POWER_NODE" := Some(Power),
    "PREPEND_WHITESPACE_NODE" := None,
    "STRING_NODE" := Some(String),
    "SUBTRACTION_NODE" := Some(Sub),
    "TOKEN_NODE" := Some(Boolean)
  ]

  /** The node type that pushes "#REF!" before the table is consulted. */
  const ReferenceError := "REFERENCE_ERROR_WITH_UIDS"

  /** The infix text of the handlers that pop two operands. */
  function OperatorText(h: Handler): Option<string>
  {
    match h
    case Add => Some("+")
    case Concat => Some("&")
    case Div => Some("÷")
    case Equals => Some("=")
    case GreaterThan => Some(">")
    case GreaterThanOrEqual => Some("≥")
    case LessThan => Some("<")
    case LessThanOrEqual => Some("≤")
    case Mul => Some("×")
    case NotEquals => Some("≠")
    case Power => Some("^")
    case Sub => Some("-")
    case _ => None
  }

  /** `decimal_high` of an integer: the decimal128 exponent field holding the bias alone. */
  const IntegerMarker := 0x3040000000000000

  /** The warnings the renderer raises, without their message text. */
  datatype Warning = UnsupportedFunction(index: nat) | StackTooSmall(name: string)
                   | UnsupportedNode(nodeType: string) | KeyNotFound(key: nat)

  /** The renderer's state: its stack, top last, and the warnings raised so far. */
  datatype Machine = Machine(stack: seq<string>, warnings: seq<Warning>)

  // ---------------------------------------------------------------------------------------
  // Text helpers.

  /** `str(b).upper()` */
  function BoolText(b: bool): string
  {
    if b then "TRUE" else "FALSE"
  }

  /** The `string` handler's form of a text: every `"` doubled, the whole wrapped in quotes. */
  function Quote(s: string): string
  {
    "\"" + Text.ReplaceAll(s, "\"", "\"\"") + "\""
  }

  /** `s[1:-1]` */
  function Inner(s: string): string
  {
    if |s| >= 2 then s[1..|s| - 1] else ""
  }

  /** `"".join(parts)` */
  function Joined(parts: seq<string>): string
  {
    if parts == [] then "" else parts[0] + Joined(parts[1..])
  }

  function Reverse<T>(s: seq<T>): (r: seq<T>)
    ensures |r| == |s|
  {
    if s == [] then [] else Reverse(s[1..]) + [s[0]]
  }

  /** `s.split(p)` for a separator of any length: the pieces between the occurrences of `p`,
      found left to right without overlap. */
  function SplitOn(s: string, p: string): (r: seq<string>)
    requires |p| > 0
    ensures |r| >= 1
    decreases |s|
  {
    if |s| < |p| then [s]
    else if s[..|p|] == p then [""] + SplitOn(s[|p|..], p)
    else
      var rest := SplitOn(s[1..], p);
      [[s[0]] + rest[0]] + rest[1..]
  }

  /** A string that contains the separator splits into at least two pieces. */
  lemma {:induction false} ContainsSplits(s: string, p: string)
    requires |p| > 0 && Text.Contains(s, p)
    ensures |SplitOn(s, p)| >= 2
    decreases |s|
  {
    var i: nat :| i <= |s| && Text.OccursAt(s, p, i);
    if s[..|p|] != p {
      assert i > 0;
      assert s[1..][i - 1..i - 1 + |p|] == s[i..i + |p|];
      assert Text.OccursAt(s[1..], p, i - 1);
      ContainsSplits(s[1..], p);
    }
  }

  /** The rows of an array: `rows` consecutive groups of `cols` entries, in stack order, each
      joined with ",". */
  function Rows(seg: seq<string>, rows: nat, cols: nat): (r: seq<string>)
    requires |seg| == rows * cols
    ensures |r| == rows
  {
    if rows == 0 then []
    else Rows(seg[..|seg| - cols], rows - 1, cols) + [Text.Join(seg[|seg| - cols..], ',')]
  }

  // ---------------------------------------------------------------------------------------
  // What each handler does to the machine.

  function PushOnto(m: Machine, v: string): Machine
  {
    m.(stack := m.stack + [v])
  }

  /** The name `function` renders: the function table's entry, or "UNDEFINED!". */
  function FunctionName(names: map<nat, string>, index: nat): string
  {
    if index in names then names[index] else "UNDEFINED!"
  }

  /** The text of the handlers that pop nothing and push one entry. */
  function LeafText(h: Handler, node: Node): Option<string>
  {
    match h
    case Empty => Some("")
    case String => Some(Quote(node.text))
    case Number =>
      Some(if node.decimalHigh == IntegerMarker then DecimalString(node.decimalLow) else node.numberText)
    case Boolean => Some(BoolText(if node.tokenBoolean.Some? then node.tokenBoolean.value else node.boolean))
    case Date =>
      Some("DATE(" + DecimalString(node.calendarDate.0) + "," + DecimalString(node.calendarDate.1) + ","
           + DecimalString(node.calendarDate.2) + ")")
    case Xref => Some(node.refText)
    case _ => None
  }

  /** `range`: the two operands joined by ":", except that a cross-table start ("T::A1")
      without a function call in either operand keeps the table part once and takes the
      part after "::" of the end. */
  function RangeText(arg1: string, arg2: string): (r: Result<string>)
    ensures r.Err? ==> r.error == IndexError
  {
    var funcRange := Text.Contains(arg1, "(") || Text.Contains(arg2, "(");
    if Text.Contains(arg1, "::") && !funcRange then
      ContainsSplits(arg1, "::");
      var p1 := SplitOn(arg1, "::");
      var p2 := SplitOn(arg2, "::");
      if |p2| < 2 then Err(IndexError)
      else Ok(p1[0] + "::" + p1[1] + ":" + p2[1])
    else Ok(arg1 + ":" + arg2)
  }

  /** One handler applied to the machine; IndexError where `Formula` pops an empty stack. */
  function Apply(names: map<nat, string>, h: Handler, node: Node, m: Machine): (r: Result<Machine>)
    ensures r.Err? ==> r.error == IndexError
  {
    var s := m.stack;
    var n := |s|;
    if LeafText(h, node).Some? then Ok(PushOnto(m, LeafText(h, node).value))
    else if OperatorText(h).Some? then
      if n < 2 then Err(IndexError)
      else Ok(Machine(s[..n - 2] + [s[n - 2] + OperatorText(h).value + s[n - 1]], m.warnings))
    else match h
      case Negate => if n < 1 then Err(IndexError) else Ok(Machine(s[..n - 1] + ["-" + s[n - 1]], m.warnings))
      case Percent => if n < 1 then Err(IndexError) else Ok(Machine(s[..n - 1] + [s[n - 1] + "%"], m.warnings))
      case Range =>
        if n < 2 then Err(IndexError)
        else
          var t :- RangeText(s[n - 2], s[n - 1]);
          Ok(Machine(s[..n - 2] + [t], m.warnings))
      case List =>
        var k := node.numArgs;
        if n < k then Err(IndexError)
        else Ok(Machine(s[..n - k] + ["(" + Text.Join(s[n - k..], ',') + ")"], m.warnings))
      case Array =>
        var k := node.numRows * node.numCols;
        if n < k then Err(IndexError)
        else Ok(Machine(s[..n - k] + ["{" + Text.Join(Rows(s[n - k..], node.numRows, node.numCols), ';') + "}"],
                        m.warnings))
      case Function =>
        var name := FunctionName(names, node.functionIndex);
        var k := if node.numArgs <= n then node.numArgs else n;
        var w1 := if node.functionIndex in names then [] else [UnsupportedFunction(node.functionIndex)];
        var w2 := if node.numArgs <= n then [] else [StackTooSmall(name)];
        Ok(Machine(s[..n - k] + [name + "(" + Text.Join(s[n - k..], ',') + ")"], m.warnings + w1 + w2))
      case _ => Ok(m)
  }

  /** The step of an infix operator. */
  lemma ApplyBinary(names: map<nat, string>, h: Handler, node: Node, m: Machine)
    requires OperatorText(h).Some?
    ensures var s := m.stack;
            Apply(names, h, node, m)
            == if |s| < 2 then Err(IndexError)
               else Ok(Machine(s[..|s| - 2] + [s[|s| - 2] + OperatorText(h).value + s[|s| - 1]], m.warnings))
  {
  }

  /** One node of `TableFormulas.formula`'s loop. */
  function Dispatch(names: map<nat, string>, node: Node, m: Machine): Result<Machine>
  {
    if node.nodeType == ReferenceError then Ok(PushOnto(m, "#REF!"))
    else if node.nodeType !in NodeFunctionMap then Ok(m.(warnings := m.warnings + [UnsupportedNode(node.nodeType)]))
    else if NodeFunctionMap[node.nodeType].None? then Ok(m)
    else Apply(names, NodeFunctionMap[node.nodeType].value, node, m)
  }

  /** The loop over a formula's nodes. */
  function Render(names: map<nat, string>, nodes: seq<Node>, m: Machine): Result<Machine>
  {
    if nodes == [] then Ok(m)
    else
      var p :- Render(names, nodes[..|nodes| - 1], m);
      Dispatch(names, nodes[|nodes| - 1], p)
  }

  /** `TableFormulas.formula`: "INVALID_KEY!(k)" with a warning for a key the table does not
      hold, otherwise the rendered stack joined top first. */
  function FormulaText(formulas: map<nat, seq<Node>>, names: map<nat, string>, key: nat): Result<(string, seq<Warning>)>
  {
    if key !in formulas then Ok(("INVALID_KEY!(" + DecimalString(key) + ")", [KeyNotFound(key)]))
    else
      var m :- Render(names, formulas[key], Machine([], []));
      Ok((Joined(Reverse(m.stack)), m.warnings))
  }

  // ---------------------------------------------------------------------------------------
  // The `Formula` object.

  /** A `Formula` being rendered: its stack and the warnings it has raised. */
  class Renderer {
    var stack: seq<string>
    var warnings: seq<Warning>
    const names: map<nat, string>

    function State(): Machine
      reads this
    {
      Machine(stack, warnings)
    }

    /** The outcome of a handler: Ok leaves the machine in `expected`'s state. */
    predicate Reached(r: Result<()>, expected: Result<Machine>)
      reads this
    {
      if r.Ok? then expected == Ok(State()) else expected == Err(r.error)
    }

    constructor(names: map<nat, string>)
      ensures stack == [] && warnings == [] && this.names == names
    {
      stack := [];
      warnings := [];
      this.names := names;
    }

    method Push(v: string)
      modifies this
      ensures stack == old(stack) + [v] && warnings == old(warnings)
    {
      stack := stack + [v];
    }

    /** `list.pop()`: IndexError on an empty stack. */
    method Pop() returns (r: Result<string>)
      modifies this
      ensures warnings == old(warnings)
      ensures old(stack) == [] ==> r == Err(IndexError)
      ensures old(stack) != [] ==> r == Ok(old(stack)[|old(stack)| - 1]) && stack == old(stack)[..|old(stack)| - 1]
    {
      if stack == [] {
        return Err(IndexError);
      }
      r := Ok(stack[|stack| - 1]);
      stack := stack[..|stack| - 1];
    }

    /** `popn`: the top `n` entries, top first. */
    method PopN(n: nat) returns (r: Result<seq<string>>)
      modifies this
      ensures warnings == old(warnings)
      ensures n > |old(stack)| ==> r == Err(IndexError)
      ensures n <= |old(stack)| ==> r == Ok(Reverse(old(stack)[|old(stack)| - n..]))
                                    && stack == old(stack)[..|old(stack)| - n]
    {
      var values: seq<string> := [];
      for i := 0 to n
        invariant warnings == old(warnings)
        invariant i <= |old(stack)|
        invariant stack == old(stack)[..|old(stack)| - i] && values == Reverse(old(stack)[|old(stack)| - i..])
      {
        var v := Pop();
        if v.Err? {
          return Err(IndexError);
        }
        ghost var o := old(stack);
        assert o[|o| - (i + 1)..] == [o[|o| - (i + 1)]] + o[|o| - i..];
        values := values + [v.value];
      }
      return Ok(values);
    }

    /** `add`, `concat`, `div`, `mul`, `power`, `sub` and the comparisons: pop the right operand,
        then the left one, push "left op right". */
    method BinaryOp(h: Handler, node: Node) returns (r: Result<()>)
      requires OperatorText(h).Some? && h != Equals
      modifies this
      ensures Reached(r, Apply(names, h, node, old(State())))
    {
      ghost var m := State();
      ApplyBinary(names, h, node, m);
      var args := PopN(2);
      if args.Err? {
        return Err(args.error);
      }
      var arg2, arg1 := args.value[0], args.value[1];
      ghost var s := m.stack;
      assert arg1 == s[|s| - 2] && arg2 == s[|s| - 1] by {
        ReverseTwo(s[|s| - 2..]);
      }
      Push(arg1 + OperatorText(h).value + arg2);
      return Ok(());
    }

    /** `equals`: the two operands are unpacked the other way round and pushed the other way
        round, so the result is the same "left=right" as every other operator's. */
    method EqualsOp(node: Node) returns (r: Result<()>)
      modifies this
      ensures Reached(r, Apply(names, Equals, node, old(State())))
    {
      var args := PopN(2);
      if args.Err? {
        return Err(args.error);
      }
      var arg1, arg2 := args.value[0], args.value[1];
      Push(arg2 + "=" + arg1);
      return Ok(());
    }

    /** `empty`, `string`, `number`, `boolean`, `date` and `xref`: push one entry. */
    method LeafOp(h: Handler, node: Node) returns (r: Result<()>)
      requires LeafText(h, node).Some?
      modifies this
      ensures Reached(r, Apply(names, h, node, old(State())))
    {
      var v: string;
      match h {
        case Empty => v := "";
        case String =>
          var value := Text.ReplaceAll(node.text, "\"", "\"\"");
          v := "\"" + value + "\"";
        case Number =>
          if node.decimalHigh == IntegerMarker {
            v := DecimalString(node.decimalLow);
          } else {
            v := node.numberText;
          }
        case Boolean =>
          if node.tokenBoolean.Some? {
            v := BoolText(node.tokenBoolean.value);
          } else {
            v := BoolText(node.boolean);
          }
        case Date =>
          var (year, month, day) := node.calendarDate;
          v := "DATE(" + DecimalString(year) + "," + DecimalString(month) + "," + DecimalString(day) + ")";
        case Xref => v := node.refText;
      }
      Push(v);
      return Ok(());
    }

    /** `negate` and `percent`: pop one entry and push it with "-" before or "%" after. */
    method UnaryOp(h: Handler, node: Node) returns (r: Result<()>)
      requires h == Negate || h == Percent
      modifies this
      ensures Reached(r, Apply(names, h, node, old(State())))
    {
      var arg1 := Pop();
      if arg1.Err? {
        return Err(arg1.error);
      }
      if h == Negate {
        Push("-" + arg1.value);
      } else {
        Push(arg1.value + "%");
      }
      return Ok(());
    }

    /** `range` */
    method RangeOp(node: Node) returns (r: Result<()>)
      modifies this
      ensures Reached(r, Apply(names, Range, node, old(State())))
    {
      var args := PopN(2);
      if args.Err? {
        return Err(args.error);
      }
      var arg2, arg1 := args.value[0], args.value[1];
      var t := RangeText(arg1, arg2);
      if t.Err? {
        return Err(t.error);
      }
      Push(t.value);
      return Ok(());
    }

    /** `list`: pop `numArgs` entries and push them joined with "," in parentheses. */
    method ListOp(node: Node) returns (r: Result<()>)
      modifies this
      ensures Reached(r, Apply(names, List, node, old(State())))
    {
      ghost var s := stack;
      var args := PopN(node.numArgs);
      if args.Err? {
        return Err(args.error);
      }
      ReverseReverse(s[|s| - node.numArgs..]);
      Push("(" + Text.Join(Reverse(args.value), ',') + ")");
      return Ok(());
    }

    /** `function`: the table's name or "UNDEFINED!", and no more arguments than the stack
        holds, each shortfall with its warning. */
    method FunctionOp(node: Node) returns (r: Result<()>)
      modifies this
      ensures Reached(r, Apply(names, Function, node, old(State())))
    {
      var numArgs := node.numArgs;
      var funcName: string;
      ghost var w0 := warnings;
      ghost var w1: seq<Warning> := [];
      ghost var w2: seq<Warning> := [];
      if node.functionIndex !in names {
        w1 := [UnsupportedFunction(node.functionIndex)];
        warnings := warnings + [UnsupportedFunction(node.functionIndex)];
        funcName := "UNDEFINED!";
      } else {
        funcName := names[node.functionIndex];
      }
      if |stack| < numArgs {
        w2 := [StackTooSmall(funcName)];
        warnings := warnings + [StackTooSmall(funcName)];
        numArgs := |stack|;
      }
      ghost var s := stack;
      var args := PopN(numArgs);
      ReverseReverse(s[|s| - numArgs..]);
      Push(funcName + "(" + Text.Join(Reverse(args.value), ',') + ")");
      assert warnings == w0 + w1 + w2;
      return Ok(());
    }

    /** `array`: a one-row array pops its columns and joins them with ","; any other pops one
        row at a time from the last and joins the rows, first row first, with ";". */
    method ArrayOp(node: Node) returns (r: Result<()>)
      modifies this
      ensures Reached(r, Apply(names, Array, node, old(State())))
    {
      ghost var s := stack;
      ghost var n := |s|;
      if node.numRows == 1 {
        var args := PopN(node.numCols);
        if args.Err? {
          return Err(args.error);
        }
        ReverseReverse(s[n - node.numCols..]);
        OneRow(s[n - node.numCols..], node.numCols);
        Push("{" + Text.Join(Reverse(args.value), ',') + "}");
        return Ok(());
      }
      var rows := PopRows(node.numRows, node.numCols);
      if rows.Err? {
        return Err(rows.error);
      }
      Push("{" + Text.Join(Reverse(rows.value), ';') + "}");
      return Ok(());
    }

    /** The loop of `array` over the rows: each pops one row's entries and keeps them joined
        with ","; the rows come out last first. */
    method PopRows(numRows: nat, numCols: nat) returns (r: Result<seq<string>>)
      modifies this
      ensures warnings == old(warnings)
      ensures numRows * numCols > |old(stack)| ==> r == Err(IndexError)
      ensures numRows * numCols <= |old(stack)| ==>
                r.Ok? && Reverse(r.value) == Rows(old(stack)[|old(stack)| - numRows * numCols..], numRows, numCols)
                && stack == old(stack)[..|old(stack)| - numRows * numCols]
    {
      ghost var s := stack;
      ghost var n := |s|;
      var rows: seq<string> := [];
      ghost var used: nat := 0;
      for row := 0 to numRows
        invariant warnings == old(warnings)
        invariant used == row * numCols && used <= n
        invariant stack == s[..n - used]
        invariant Reverse(rows) == Rows(s[n - used..], row, numCols)
      {
        ghost var o := stack;
        var args := PopN(numCols);
        if args.Err? {
          TooFewEntries(row, numRows, numCols, used, n);
          return Err(args.error);
        }
        var x := Text.Join(Reverse(args.value), ',');
        RowStep(s, n, row, numCols, used, rows, o, args.value, stack, x);
        rows := rows + [x];
        used := used + numCols;
      }
      return Ok(rows);
    }

    /** One node of `TableFormulas.formula`'s loop. */
    method DispatchNode(node: Node) returns (r: Result<()>)
      modifies this
      ensures Reached(r, Dispatch(names, node, old(State())))
    {
      if node.nodeType == ReferenceError {
        Push("#REF!");
        return Ok(());
      }
      if node.nodeType !in NodeFunctionMap {
        warnings := warnings + [UnsupportedNode(node.nodeType)];
        return Ok(());
      }
      if NodeFunctionMap[node.nodeType].None? {
        return Ok(());
      }
      var h := NodeFunctionMap[node.nodeType].value;
      if LeafText(h, node).Some? {
        r := LeafOp(h, node);
      } else if h == Equals {
        r := EqualsOp(node);
      } else if OperatorText(h).Some? {
        r := BinaryOp(h, node);
      } else if h == Negate || h == Percent {
        r := UnaryOp(h, node);
      } else if h == Range {
        r := RangeOp(node);
      } else if h == List {
        r := ListOp(node);
      } else if h == Function {
        r := FunctionOp(node);
      } else {
        assert h == Array;
        r := ArrayOp(node);
      }
    }

    /** `__str__`: the stack's entries joined, top first. */
    function Str(): string
      reads this
    {
      Joined(Reverse(stack))
    }
  }

  lemma {:induction false} ReverseSnoc<T>(s: seq<T>, x: T)
    ensures Reverse(s + [x]) == [x] + Reverse(s)
    decreases |s|
  {
    if s == [] {
      assert [] + [x] == [x];
      assert [x][1..] == [];
    } else {
      assert (s + [x])[0] == s[0] && (s + [x])[1..] == s[1..] + [x];
      ReverseSnoc(s[1..], x);
    }
  }

  lemma ReverseTwo<T>(t: seq<T>)
    requires |t| == 2
    ensures Reverse(t) == [t[1], t[0]]
  {
    assert t[1..][1..] == [];
  }

  lemma {:induction false} ReverseReverse<T>(s: seq<T>)
    ensures Reverse(Reverse(s)) == s
    decreases |s|
  {
    if s != [] {
      ReverseReverse(s[1..]);
      ReverseSnoc(Reverse(s[1..]), s[0]);
      assert [s[0]] + s[1..] == s;
    }
  }

  lemma {:induction false} OneRow(seg: seq<string>, cols: nat)
    requires |seg| == cols
    ensures Rows(seg, 1, cols) == [Text.Join(seg, ',')]
  {
    assert seg[|seg| - cols..] == seg;
    assert seg[..|seg| - cols] == [];
  }

  /** Popping one more row: the next `cols` entries below the rows popped so far. */
  lemma {:induction false} RowsFront(s: seq<string>, n: nat, row: nat, cols: nat, used: nat)
    requires n == |s| && used == row * cols && used + cols <= n
    ensures used + cols == (row + 1) * cols
    ensures Rows(s[n - (used + cols)..], row + 1, cols)
            == [Text.Join(s[n - (used + cols)..n - used], ',')] + Rows(s[n - used..], row, cols)
  {
    var seg := s[n - (used + cols)..];
    MulStep(row + 1, cols);
    RowsFirst(seg, row + 1, cols);
    assert seg[..cols] == s[n - (used + cols)..n - used];
    assert seg[cols..] == s[n - used..];
  }

  /** One turn of `array`'s loop over the rows keeps that loop's invariant. */
  lemma RowStep(s: seq<string>, n: nat, row: nat, cols: nat, used: nat, rows: seq<string>,
                o: seq<string>, popped: seq<string>, after: seq<string>, x: string)
    requires n == |s| && used == row * cols && used <= n && o == s[..n - used] && cols <= |o|
    requires popped == Reverse(o[|o| - cols..]) && after == o[..|o| - cols] && x == Text.Join(Reverse(popped), ',')
    requires Reverse(rows) == Rows(s[n - used..], row, cols)
    ensures used + cols == (row + 1) * cols && used + cols <= n && after == s[..n - (used + cols)]
    ensures Reverse(rows + [x]) == Rows(s[n - (used + cols)..], row + 1, cols)
  {
    RowsFront(s, n, row, cols, used);
    var top := o[|o| - cols..];
    ReverseReverse(top);
    assert top == s[n - (used + cols)..n - used];
    ReverseSnoc(rows, x);
  }

  /** The rows of an array, peeled from the first. */
  lemma {:induction false} RowsFirst(seg: seq<string>, rows: nat, cols: nat)
    requires rows >= 1 && |seg| == rows * cols
    ensures |seg| >= cols
    ensures Rows(seg, rows, cols) == [Text.Join(seg[..cols], ',')] + Rows(seg[cols..], rows - 1, cols)
    decreases rows
  {
    var l := |seg|;
    MulStep(rows, cols);
    if rows == 1 {
      assert seg[..l - cols] == [] && seg[l - cols..] == seg && seg[..cols] == seg && seg[cols..] == [];
    } else {
      MulStep(rows - 1, cols);
      var front := seg[..l - cols];
      var back := seg[cols..];
      RowsFirst(front, rows - 1, cols);
      assert front[..cols] == seg[..cols];
      assert front[cols..] == back[..|back| - cols];
      assert back[|back| - cols..] == seg[l - cols..];
    }
  }

  lemma MulMonotone(a: nat, b: nat, c: nat)
    requires a <= b
    ensures a * c <= b * c
  {
  }

  /** A row that cannot be popped means the whole array needs more entries than the stack
      held. */
  lemma TooFewEntries(row: nat, numRows: nat, numCols: nat, used: nat, n: nat)
    requires row < numRows && used == row * numCols && used + numCols > n
    ensures numRows * numCols > n
  {
    MulStep(row + 1, numCols);
    MulMonotone(row + 1, numRows, numCols);
  }

  lemma MulStep(rows: nat, cols: nat)
    requires rows >= 1
    ensures rows * cols == (rows - 1) * cols + cols
  {
  }
  /** `TableFormulas.formula` */
  method FormulaOf(formulas: map<nat, seq<Node>>, names: map<nat, string>, key: nat)
    returns (r: Result<(string, seq<Warning>)>)
    ensures r == FormulaText(formulas, names, key)
  {
    if key !in formulas {
      return Ok(("INVALID_KEY!(" + DecimalString(key) + ")", [KeyNotFound(key)]));
    }
    var nodes := formulas[key];
    var formula := new Renderer(names);
    for i := 0 to |nodes|
      invariant Render(names, nodes[..i], Machine([], [])) == Ok(formula.State())
    {
      assert nodes[..i + 1][..i] == nodes[..i];
      var step := formula.DispatchNode(nodes[i]);
      if step.Err? {
        RenderStops(names, nodes, i + 1);
        return Err(step.error);
      }
    }
    assert nodes[..|nodes|] == nodes;
    return Ok((formula.Str(), formula.warnings));
  }

  /** A node that fails stops the loop with its error. */
  lemma {:induction false} RenderStops(names: map<nat, string>, nodes: seq<Node>, i: nat)
    requires i <= |nodes| && Render(names, nodes[..i], Machine([], [])).Err?
    ensures Render(names, nodes, Machine([], [])) == Render(names, nodes[..i], Machine([], []))
    decreases |nodes| - i
  {
    if i < |nodes| {
      assert nodes[..i + 1][..i] == nodes[..i];
      assert Render(names, nodes[..i + 1], Machine([], [])) == Render(names, nodes[..i], Machine([], []));
      RenderStops(names, nodes, i + 1);
    } else {
      assert nodes[..i] == nodes;
    }
  }

  // ---------------------------------------------------------------------------------------
  // Rendering whole expressions.

  /** The node's handler, when the table maps its type to one. */
  predicate Handles(node: Node, h: Handler)
  {
    node.nodeType != ReferenceError && node.nodeType in NodeFunctionMap && NodeFunctionMap[node.nodeType] == Some(h)
  }

  /** What a node that pops nothing pushes: "#REF!" for a reference error, or its handler's
      text. */
  function LeafOf(node: Node): Option<string>
  {
    if node.nodeType == ReferenceError then Some("#REF!")
    else if node.nodeType in NodeFunctionMap && NodeFunctionMap[node.nodeType].Some? then
      LeafText(NodeFunctionMap[node.nodeType].value, node)
    else None
  }

  /** An expression as the stored formula spells it: operands, operators over their operands,
      function calls over their arguments. */
  datatype Ast = Leaf(node: Node) | Unary(node: Node, arg: Ast) | Binary(node: Node, left: Ast, right: Ast)
               | Call(node: Node, args: seq<Ast>)

  /** Every node has the handler its place calls for, and every call names a function of the
      table with as many arguments as it has. */
  predicate WellFormed(names: map<nat, string>, t: Ast)
    decreases t
  {
    match t
    case Leaf(node) => LeafOf(node).Some?
    case Unary(node, arg) => (Handles(node, Negate) || Handles(node, Percent)) && WellFormed(names, arg)
    case Binary(node, l, r) =>
      (exists h :: Handles(node, h) && OperatorText(h).Some?) && WellFormed(names, l) && WellFormed(names, r)
    case Call(node, args) =>
      Handles(node, Function) && node.functionIndex in names && node.numArgs == |args| && WellFormedArgs(names, args)
  }

  predicate WellFormedArgs(names: map<nat, string>, args: seq<Ast>)
    decreases args
  {
    args != [] ==> WellFormed(names, args[0]) && WellFormedArgs(names, args[1..])
  }

  /** The postfix node array of an expression. */
  function Nodes(t: Ast): seq<Node>
    decreases t
  {
    match t
    case Leaf(node) => [node]
    case Unary(node, arg) => Nodes(arg) + [node]
    case Binary(node, l, r) => Nodes(l) + Nodes(r) + [node]
    case Call(node, args) => ArgNodes(args) + [node]
  }

  function ArgNodes(args: seq<Ast>): seq<Node>
    decreases args
  {
    if args == [] then [] else Nodes(args[0]) + ArgNodes(args[1..])
  }

  /** The infix text of an expression: an operator between its operands' texts, a function's
      name before its arguments' texts joined with ",". */
  function TextOf(names: map<nat, string>, t: Ast): string
    requires WellFormed(names, t)
    decreases t
  {
    match t
    case Leaf(node) => LeafOf(node).value
    case Unary(node, arg) => if Handles(node, Negate) then "-" + TextOf(names, arg) else TextOf(names, arg) + "%"
    case Binary(node, l, r) =>
      var h :| Handles(node, h) && OperatorText(h).Some?;
      TextOf(names, l) + OperatorText(h).value + TextOf(names, r)
    case Call(node, args) => names[node.functionIndex] + "(" + Text.Join(ArgTexts(names, args), ',') + ")"
  }

  function ArgTexts(names: map<nat, string>, args: seq<Ast>): (r: seq<string>)
    requires WellFormedArgs(names, args)
    ensures |r| == |args|
    decreases args
  {
    if args == [] then [] else [TextOf(names, args[0])] + ArgTexts(names, args[1..])
  }

  /** Running two node arrays is running the first, then the second from where it ended. */
  lemma {:induction false} RenderAppend(names: map<nat, string>, a: seq<Node>, b: seq<Node>, m: Machine)
    ensures Render(names, a + b, m) == match Render(names, a, m) case Ok(p) => Render(names, b, p) case Err(e) => Err(e)
    decreases |b|
  {
    if b == [] {
      assert a + b == a;
    } else {
      var c := a + b;
      assert c[..|c| - 1] == a + b[..|b| - 1] && c[|c| - 1] == b[|b| - 1];
      RenderAppend(names, a, b[..|b| - 1], m);
    }
  }

  lemma {:induction false} RenderOne(names: map<nat, string>, node: Node, m: Machine)
    ensures Render(names, [node], m) == Dispatch(names, node, m)
  {
    assert [node][..0] == [];
  }

  /** A node with a handler runs that handler. */
  lemma {:induction false} DispatchHandler(names: map<nat, string>, node: Node, h: Handler, m: Machine)
    requires Handles(node, h)
    ensures Dispatch(names, node, m) == Apply(names, h, node, m)
  {
  }

  /** Rendering an expression's node array pushes exactly its infix text and raises no
      warning. */
  lemma {:induction false} RenderTree(names: map<nat, string>, t: Ast, m: Machine)
    requires WellFormed(names, t)
    ensures Render(names, Nodes(t), m) == Ok(PushOnto(m, TextOf(names, t)))
    decreases t
  {
    match t
    case Leaf(node) =>
      RenderOne(names, node, m);
    case Unary(node, arg) =>
      RenderTree(names, arg, m);
      var h := if Handles(node, Negate) then Negate else Percent;
      UnaryStep(names, node, h, Nodes(arg), TextOf(names, arg), m);
    case Binary(node, l, r) =>
      var h :| Handles(node, h) && OperatorText(h).Some?;
      RenderTree(names, l, m);
      RenderTree(names, r, PushOnto(m, TextOf(names, l)));
      BinaryStep(names, node, h, Nodes(l), Nodes(r), TextOf(names, l), TextOf(names, r), m);
    case Call(node, args) =>
      RenderArgs(names, args, m);
      CallStep(names, node, ArgNodes(args), ArgTexts(names, args), m);
  }

  lemma {:induction false} UnaryStep(names: map<nat, string>, node: Node, h: Handler, a: seq<Node>, x: string, m: Machine)
    requires Handles(node, h) && (h == Negate || h == Percent)
    requires Render(names, a, m) == Ok(PushOnto(m, x))
    ensures Render(names, a + [node], m) == Ok(PushOnto(m, if h == Negate then "-" + x else x + "%"))
  {
    var mx := PushOnto(m, x);
    var y := if h == Negate then "-" + x else x + "%";
    RenderAppend(names, a, [node], m);
    assert Render(names, a + [node], m) == Render(names, [node], mx);
    RenderOne(names, node, mx);
    DispatchHandler(names, node, h, mx);
    ApplyUnary(names, h, node, m, x);
    assert Apply(names, h, node, mx) == Ok(PushOnto(m, y));
  }

  /** A prefix minus or a postfix percent replaces the top of the stack by its text. */
  lemma ApplyUnary(names: map<nat, string>, h: Handler, node: Node, m: Machine, x: string)
    requires h == Negate || h == Percent
    ensures Apply(names, h, node, PushOnto(m, x)) == Ok(PushOnto(m, if h == Negate then "-" + x else x + "%"))
  {
    var s := PushOnto(m, x).stack;
    assert s[..|s| - 1] == m.stack && s[|s| - 1] == x;
  }

  lemma {:induction false} BinaryStep(names: map<nat, string>, node: Node, h: Handler, a: seq<Node>, b: seq<Node>,
                                      x: string, y: string, m: Machine)
    requires Handles(node, h) && OperatorText(h).Some?
    requires Render(names, a, m) == Ok(PushOnto(m, x))
    requires Render(names, b, PushOnto(m, x)) == Ok(PushOnto(PushOnto(m, x), y))
    ensures Render(names, a + b + [node], m) == Ok(PushOnto(m, x + OperatorText(h).value + y))
  {
    var mr := PushOnto(PushOnto(m, x), y);
    RenderAppend(names, a, b, m);
    RenderAppend(names, a + b, [node], m);
    RenderOne(names, node, mr);
    DispatchHandler(names, node, h, mr);
    BinaryTop(mr.stack, m.stack, x, y);
  }

  lemma {:induction false} CallStep(names: map<nat, string>, node: Node, a: seq<Node>, texts: seq<string>, m: Machine)
    requires Handles(node, Function) && node.functionIndex in names && node.numArgs == |texts|
    requires Render(names, a, m) == Ok(Machine(m.stack + texts, m.warnings))
    ensures Render(names, a + [node], m)
            == Ok(PushOnto(m, names[node.functionIndex] + "(" + Text.Join(texts, ',') + ")"))
  {
    var ma := Machine(m.stack + texts, m.warnings);
    RenderAppend(names, a, [node], m);
    RenderOne(names, node, ma);
    DispatchHandler(names, node, Function, ma);
    var n := |ma.stack|;
    assert ma.stack[..n - |texts|] == m.stack && ma.stack[n - |texts|..] == texts;
    assert m.warnings + [] + [] == m.warnings;
  }

  lemma BinaryTop(st: seq<string>, s: seq<string>, x: string, y: string)
    requires st == s + [x] + [y]
    ensures |st| >= 2 && st[..|st| - 2] == s && st[|st| - 2] == x && st[|st| - 1] == y
  {
  }

  /** Rendering the arguments of a call pushes their texts in order. */
  lemma {:induction false} RenderArgs(names: map<nat, string>, args: seq<Ast>, m: Machine)
    requires WellFormedArgs(names, args)
    ensures Render(names, ArgNodes(args), m) == Ok(Machine(m.stack + ArgTexts(names, args), m.warnings))
    decreases args
  {
    if args == [] {
      assert m.stack + [] == m.stack;
    } else {
      var m1 := PushOnto(m, TextOf(names, args[0]));
      RenderTree(names, args[0], m);
      RenderArgs(names, args[1..], m1);
      RenderAppend(names, Nodes(args[0]), ArgNodes(args[1..]), m);
      Text.AppendAssoc(m.stack, [TextOf(names, args[0])], ArgTexts(names, args[1..]));
    }
  }

  /** A stored formula that spells an expression renders as the expression's text. */
  lemma {:induction false} FormulaOfTree(formulas: map<nat, seq<Node>>, names: map<nat, string>, key: nat, t: Ast)
    requires key in formulas && formulas[key] == Nodes(t) && WellFormed(names, t)
    ensures FormulaText(formulas, names, key) == Ok((TextOf(names, t), []))
  {
    var x := TextOf(names, t);
    RenderTree(names, t, Machine([], []));
    assert PushOnto(Machine([], []), x).stack == [x];
    assert [x][1..] == [];
    assert Reverse([x]) == [x];
    assert Joined([x]) == x + "";
    assert x + "" == x;
  }

  // ---------------------------------------------------------------------------------------
  // Arrays, ranges and the handlers' warnings.

  /** Row `i` of an array is the `i`-th group of `cols` entries in stack order, starting at `a`, joined with
      ",". */
  lemma {:induction false} RowsAt(seg: seq<string>, rows: nat, cols: nat, i: nat, a: nat)
    requires |seg| == rows * cols && i < rows && a == i * cols
    ensures a + cols <= |seg|
    ensures Rows(seg, rows, cols)[i] == Text.Join(seg[a..a + cols], ',')
    decreases rows
  {
    if i < rows - 1 {
      RowsPrefix(seg, rows, cols, i);
      RowsAt(seg[..|seg| - cols], rows - 1, cols, i, a);
      SliceOfPrefix(seg, |seg| - cols, a, cols);
    } else {
      RowsLast(seg, rows, cols);
    }
  }

  lemma SliceOfPrefix(seg: seq<string>, l: nat, a: nat, c: nat)
    requires l <= |seg| && a + c <= l
    ensures seg[..l][a..a + c] == seg[a..a + c]
  {
  }

  lemma RowsLast(seg: seq<string>, rows: nat, cols: nat)
    requires |seg| == rows * cols && rows >= 1
    ensures (rows - 1) * cols + cols == |seg|
    ensures Rows(seg, rows, cols)[rows - 1] == Text.Join(seg[(rows - 1) * cols..(rows - 1) * cols + cols], ',')
  {
    MulStep(rows, cols);
    assert seg[(rows - 1) * cols..(rows - 1) * cols + cols] == seg[|seg| - cols..];
  }

  lemma RowsPrefix(seg: seq<string>, rows: nat, cols: nat, i: nat)
    requires |seg| == rows * cols && i < rows - 1
    ensures |seg| >= cols && |seg[..|seg| - cols]| == (rows - 1) * cols
    ensures Rows(seg, rows, cols)[i] == Rows(seg[..|seg| - cols], rows - 1, cols)[i]
  {
    MulStep(rows, cols);
  }

  /** A one-row array pops its `numCols` entries and pushes them as "{a,b,...}". */
  lemma ArrayOneRow(names: map<nat, string>, node: Node, m: Machine)
    requires node.numRows == 1 && node.numCols <= |m.stack|
    ensures var s, c := m.stack, node.numCols;
            Apply(names, Array, node, m)
            == Ok(Machine(s[..|s| - c] + ["{" + Text.Join(s[|s| - c..], ',') + "}"], m.warnings))
  {
    var s, c := m.stack, node.numCols;
    assert node.numRows * node.numCols == c;
    OneRow(s[|s| - c..], c);
  }

  /** No character of `s` is `c`. */
  predicate Lacks(s: string, c: char)
  {
    forall j :: 0 <= j < |s| ==> s[j] != c
  }

  lemma {:induction false} SplitOnWhole(c: string)
    requires Lacks(c, ':')
    ensures SplitOn(c, "::") == [c]
    decreases |c|
  {
    if |c| >= 2 {
      assert c[..2][0] == c[0];
      SplitOnWhole(c[1..]);
      assert [c[0]] + c[1..] == c;
    }
  }

  lemma {:induction false} SplitOnPair(t: string, c: string)
    requires Lacks(t, ':') && Lacks(c, ':')
    ensures SplitOn(t + "::" + c, "::") == [t, c]
    decreases |t|
  {
    var s := t + "::" + c;
    if t == [] {
      assert s[..2] == "::" && s[2..] == c;
      SplitOnWhole(c);
    } else {
      assert s[..2][0] == t[0];
      assert s[1..] == t[1..] + "::" + c;
      SplitOnPair(t[1..], c);
      assert [t[0]] + t[1..] == t;
    }
  }

  lemma NoOccurrence(x: string, c: char)
    requires Lacks(x, c)
    ensures !Text.Contains(x, [c])
  {
    forall i: nat | i <= |x|
      ensures !Text.OccursAt(x, [c], i)
    {
      if i + 1 <= |x| {
        assert x[i..i + 1][0] == x[i];
      }
    }
  }

  /** `range` between two cross-table cells keeps the table once: "T::A1" and "T::B2" give
      "T::A1:B2". */
  lemma CrossTableRange(t1: string, c1: string, t2: string, c2: string)
    requires Lacks(t1, ':') && Lacks(c1, ':') && Lacks(t2, ':') && Lacks(c2, ':')
    requires Lacks(t1 + "::" + c1, '(') && Lacks(t2 + "::" + c2, '(')
    ensures RangeText(t1 + "::" + c1, t2 + "::" + c2) == Ok(t1 + "::" + c1 + ":" + c2)
  {
    var a1, a2 := t1 + "::" + c1, t2 + "::" + c2;
    assert Text.OccursAt(a1, "::", |t1|) by {
      assert a1[|t1|..|t1| + 2] == "::";
    }
    NoOccurrence(a1, '(');
    NoOccurrence(a2, '(');
    assert "(" == ['('];
    SplitOnPair(t1, c1);
    SplitOnPair(t2, c2);
  }

  /** A function index the table does not know renders as "UNDEFINED!" with a warning: the
      two-argument call on "1" and "2" gives "UNDEFINED!(1,2)". */
  lemma UndefinedFunctionExample(names: map<nat, string>, node: Node)
    requires node.functionIndex !in names && node.numArgs == 2
    ensures Apply(names, Function, node, Machine(["1", "2"], []))
            == Ok(Machine(["UNDEFINED!(1,2)"], [UnsupportedFunction(node.functionIndex)]))
  {
    var s := ["1", "2"];
    assert s[..0] == [] && s[0..] == s;
    assert Text.Join(s, ',') == "1,2";
    assert LeafText(Function, node) == None && OperatorText(Function) == None;
    assert FunctionName(names, node.functionIndex) == "UNDEFINED!";
    var x := "UNDEFINED!" + "(" + Text.Join(s[0..], ',') + ")";
    assert Apply(names, Function, node, Machine(s, [])) == Ok(Machine(s[..0] + [x], [] + [UnsupportedFunction(node.functionIndex)] + []));
    assert x == "UNDEFINED!(1,2)";
    assert s[..0] + [x] == ["UNDEFINED!(1,2)"];
    assert [] + [UnsupportedFunction(node.functionIndex)] + [] == [UnsupportedFunction(node.functionIndex)];
  }

  /** A call asking for more arguments than the stack holds takes what there is and warns:
      SUM with three arguments over "1" and "2" gives "SUM(1,2)". */
  lemma StackTooSmallExample(names: map<nat, string>, node: Node)
    requires node.functionIndex in names && names[node.functionIndex] == "SUM" && node.numArgs == 3
    ensures Apply(names, Function, node, Machine(["1", "2"], []))
            == Ok(Machine(["SUM(1,2)"], [StackTooSmall("SUM")]))
  {
    var s := ["1", "2"];
    assert s[..0] == [] && s[0..] == s;
    assert Text.Join(s, ',') == "1,2";
    assert LeafText(Function, node) == None && OperatorText(Function) == None;
    var x := "SUM" + "(" + Text.Join(s[0..], ',') + ")";
    assert Apply(names, Function, node, Machine(s, [])) == Ok(Machine(s[..0] + [x], [] + [] + [StackTooSmall("SUM")]));
    assert x == "SUM(1,2)";
    assert s[..0] + [x] == ["SUM(1,2)"];
    assert [] + [] + [StackTooSmall("SUM")] == [StackTooSmall("SUM")];
  }

  /** A node type outside the table only warns: VIEW_TRACT_REF_NODE leaves the stack as it
      is. */
  lemma UnsupportedNodeExample(names: map<nat, string>, node: Node, m: Machine)
    requires node.nodeType == "VIEW_TRACT_REF_NODE"
    ensures Dispatch(names, node, m) == Ok(Machine(m.stack, m.warnings + [UnsupportedNode("VIEW_TRACT_REF_NODE")]))
  {
    assert "VIEW_TRACT_REF_NODE" !in NodeFunctionMap;
  }

  /** Whitespace and thunk markers are in the table without a handler: they change nothing. */
  lemma SkippedNodes(names: map<nat, string>, node: Node, m: Machine)
    requires node.nodeType in {"APPEND_WHITESPACE_NODE", "PREPEND_WHITESPACE_NODE",
                               "BEGIN_EMBEDDED_NODE_ARRAY", "END_THUNK_NODE"}
    ensures Dispatch(names, node, m) == Ok(m)
  {
    SkippedEntry(node.nodeType);
  }

  lemma SkippedEntry(t: string)
    requires t in {"APPEND_WHITESPACE_NODE", "PREPEND_WHITESPACE_NODE", "BEGIN_EMBEDDED_NODE_ARRAY", "END_THUNK_NODE"}
    ensures t != ReferenceError && t in NodeFunctionMap && NodeFunctionMap[t].None?
  {
    if t == "APPEND_WHITESPACE_NODE" {
    } else if t == "PREPEND_WHITESPACE_NODE" {
    } else if t == "BEGIN_EMBEDDED_NODE_ARRAY" {
    } else {
    }
  }

  /** The reference-error node pushes "#REF!" whatever the table says. */
  lemma ReferenceErrorExample(names: map<nat, string>, node: Node, m: Machine)
    requires node.nodeType == ReferenceError
    ensures Dispatch(names, node, m) == Ok(PushOnto(m, "#REF!"))
  {
  }
}
