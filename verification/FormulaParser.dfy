/** The parser object: it pastes parameter values into its formula, parses the text, compiles
    the tree into its code vector and runs the code on its fixed stack. */
module FormulaParser {
  import opened FormulaAst
  import opened Decimal
  import opened FormulaGrammar
  import opened FormulaSyntax
  import opened FormulaSubstitution
  import opened FormulaMeaning
  import opened FormulaMachine
  import opened Wrappers

  /** One entry of the parameter map, which is listed in the order of its keys. */
  datatype Entry = Entry(key: string, values: seq<real>)
  type ParameterMap = seq<Entry>

  /** EmptyVector and ParseFailure are exceptions, as is MathFailure. StackOverrun stands for
      writing behind the stack, which nothing guards against; Astray for the other outcomes of
      the machine. */
  datatype Evaluation =
    | Value(v: real)
    | MathFailure(error: MathError)
    | EmptyVector
    | ParseFailure
    | StackOverrun
    | Astray

  const STACK_SIZE: nat := 4096

  // ----- specification -----

  /** The constants of a parser: e and pi come first; a user's definition of the same name is
      ignored. */
  function Known(user: Constants, e: real, pi: real): Constants {
    user.(names := user.names + map["e" := e, "pi" := pi])
  }

  function IndexedName(key: string, i: nat): string { key + "[" + NatText(i) + "]" }

  /** The bindings of `key[i]`, `key[i + 1]` and so on. */
  function IndexedBindings(toText: real -> string, key: string, values: seq<real>, i: nat): seq<Binding>
    requires i <= |values|
    decreases |values| - i
  {
    if i == |values| then []
    else [Binding(IndexedName(key, i), toText(values[i]))] + IndexedBindings(toText, key, values, i + 1)
  }

  function EntryBindings(toText: real -> string, e: Entry): seq<Binding> {
    if |e.values| == 1 then [Binding(e.key, toText(e.values[0]))]
    else IndexedBindings(toText, e.key, e.values, 0)
  }

  function Bindings(toText: real -> string, vm: ParameterMap): seq<Binding> {
    if vm == [] then [] else EntryBindings(toText, vm[0]) + Bindings(toText, vm[1..])
  }

  predicate HasEmptyVector(vm: ParameterMap) { exists i :: 0 <= i < |vm| && vm[i].values == [] }

  /** The formula after replacement, or None for the exception about an empty vector. */
  function Processed(toText: real -> string, raw: string, vm: ParameterMap): Option<string> {
    if HasEmptyVector(vm) then None else Some(PasteAll(raw, Bindings(toText, vm)))
  }

  function OfOutcome(outcome: Outcome): Evaluation {
    match outcome
    case Finished(stack) => if |stack| > 0 then Value(stack[0]) else Astray
    case Threw(error) => MathFailure(error)
    case Overrun => StackOverrun
    case _ => Astray
  }

  function EvaluationOf(lib: MathLib, consts: Constants, formula: Option<string>): Evaluation {
    if formula.None? then EmptyVector
    else
      var parsed := Parse(consts, formula.value);
      if parsed.None? then ParseFailure
      else OfOutcome(Run(lib, STACK_SIZE, Compile(parsed.value), 0, []))
  }

  /** What evaluating a tree gives: its value or its first error, or a write behind the stack if
      evaluation reaches too deep. */
  ghost predicate Computes(lib: MathLib, x: Operand, r: Evaluation)
    requires WellFormed(x)
  {
    var v := Eval(lib, x);
    r == if Reached(lib, x) > STACK_SIZE then StackOverrun else if v.Ok? then Value(v.v) else MathFailure(v.error)
  }

  // ----- the object -----

  /** How often a tree has to be visited; it bounds the recursion of the visitors. */
  ghost function Size(x: Operand): nat {
    match x
    case Signed(_, y) => 1 + Size(y)
    case UnaryFunction(_, y) => 1 + Size(y)
    case BinaryFunction(_, y1, y2) => 1 + Size(y1) + Size(y2)
    case AstExpression(first, rest) => 1 + Size(first) + SizeRest(rest)
    case _ => 1
  }

  ghost function SizeRest(rest: Operations): nat {
    match rest
    case End => 0
    case Link(_, y, tail) => 1 + Size(y) + SizeRest(tail)
  }

  lemma {:induction false} PasteAllSplit(text: string, a: seq<Binding>, b: seq<Binding>)
    ensures PasteAll(text, a + b) == PasteAll(PasteAll(text, a), b)
    decreases |a|
  {
    if a == [] {
      assert a + b == b;
    } else {
      assert (a + b)[1..] == a[1..] + b;
      PasteAllSplit(ReplaceAll(text, HolderText(a[0].name), a[0].text), a[1..], b);
    }
  }

  lemma CodeAssociates(a: seq<CodeEntry>, b: seq<CodeEntry>, c: seq<CodeEntry>)
    ensures (a + b) + c == a + (b + c)
  {
  }

  class GFormulaParser {
    const rawFormula: string
    const consts: Constants
    const lib: MathLib
    const toText: real -> string
    const stack: array<real>
    var code: seq<CodeEntry>
    var stackPtr: nat

    constructor (formula: string, user: Constants, e: real, pi: real, lib: MathLib, toText: real -> string)
      ensures rawFormula == formula && this.lib == lib && this.toText == toText
      ensures consts == Known(user, e, pi)
      ensures Valid() && fresh(stack) && stack.Length == 4096
    {
      rawFormula := formula;
      consts := Known(user, e, pi);
      this.lib := lib;
      this.toText := toText;
      stack := new real[STACK_SIZE];
      code := [];
      stackPtr := 0;
    }

    ghost predicate Valid() { stack.Length == STACK_SIZE }

    // ----- compilation -----

    method VisitOperand(x: Operand)
      requires WellFormed(x)
      modifies this`code
      ensures code == old(code) + Compile(x)
      decreases Size(x), 0
    {
      match x
      case Fp(v) => code := code + [Op(OpFp), Literal(v)];
      case Signed(sign, y) =>
        VisitOperand(y);
        if sign == '-' { code := code + [Op(OpNeg)]; }
      case UnaryFunction(fname, y) =>
        VisitOperand(y);
        code := code + [Op(UnaryCode(UnaryNamed(fname)))];
      case BinaryFunction(fname, y1, y2) =>
        VisitOperand(y1);
        VisitOperand(y2);
        code := code + [Op(BinaryCode(BinaryNamed(fname)))];
      case AstExpression(first, rest) => VisitExpression(first, rest);
    }

    method VisitOperation(op: char, y: Operand)
      requires IsOperator(op) && WellFormed(y)
      modifies this`code
      ensures code == old(code) + (Compile(y) + [Op(OperatorCode(op))])
      decreases Size(y), 1
    {
      VisitOperand(y);
      code := code + [Op(OperatorCode(op))];
    }

    method VisitExpression(first: Operand, rest: Operations)
      requires WellFormed(first) && WellFormedRest(rest)
      modifies this`code
      ensures code == old(code) + (Compile(first) + CompileRest(rest))
      decreases Size(first) + SizeRest(rest), 2
    {
      VisitOperand(first);
      var cursor := rest;
      while cursor.Link?
        invariant WellFormedRest(cursor) && SizeRest(cursor) <= SizeRest(rest)
        invariant code + CompileRest(cursor) == old(code) + (Compile(first) + CompileRest(rest))
        decreases cursor
      {
        CodeAssociates(code, Compile(cursor.operand) + [Op(OperatorCode(cursor.operator_))], CompileRest(cursor.tail));
        VisitOperation(cursor.operator_, cursor.operand);
        cursor := cursor.tail;
      }
    }

    // ----- replacement of place holders -----

    method ReplacePlaceHolders(vm: ParameterMap) returns (result: Option<string>)
      ensures result == Processed(toText, rawFormula, vm)
      ensures result == None <==> exists i :: 0 <= i < |vm| && vm[i].values == []
    {
      var formula := rawFormula;
      var i := 0;
      while i < |vm|
        invariant 0 <= i <= |vm|
        invariant forall j :: 0 <= j < i ==> vm[j].values != []
        invariant PasteAll(formula, Bindings(toText, vm[i..])) == PasteAll(rawFormula, Bindings(toText, vm))
      {
        if vm[i].values == [] { return None; }
        assert vm[i..][1..] == vm[i + 1..];
        PasteAllSplit(formula, EntryBindings(toText, vm[i]), Bindings(toText, vm[i + 1..]));
        formula := ReplaceEntry(formula, vm[i].key, vm[i].values);
        i := i + 1;
      }
      return Some(formula);
    }

    /** One turn of the loop over the map. */
    method ReplaceEntry(start: string, key: string, values: seq<real>) returns (formula: string)
      requires values != []
      ensures formula == PasteAll(start, EntryBindings(toText, Entry(key, values)))
    {
      if |values| == 1 {
        formula := ReplaceAll(start, HolderText(key), toText(values[0]));
      } else {
        formula := start;
        var cnt := 0;
        while cnt < |values|
          invariant 0 <= cnt <= |values|
          invariant PasteAll(formula, IndexedBindings(toText, key, values, cnt)) ==
                    PasteAll(start, IndexedBindings(toText, key, values, 0))
        {
          formula := ReplaceAll(formula, HolderText(IndexedName(key, cnt)), toText(values[cnt]));
          cnt := cnt + 1;
        }
      }
    }

    // ----- execution -----

    /** The instructions that replace the topmost cell. */
    method ExecuteUnary(op: ByteCode) returns (thrown: Option<MathError>)
      requires IsUnary(op) && 1 <= stackPtr <= stack.Length
      modifies stack
      ensures var n := stackPtr - 1;
              var r := OnTop(lib, op, old(stack[n]));
              if r.Ok? then thrown == None && stack[..stackPtr] == old(stack[..n]) + [r.v]
              else thrown == Some(r.error)
      ensures var v, r := old(stack[stackPtr - 1]), stack[stackPtr - 1];
              (op == OpNeg ==> r + v == 0.0) && (op == OpFabs ==> r >= 0.0 && (r == v || r == -v)) &&
              (op == OpFloor ==> r.Floor as real == r && r <= v < r + 1.0) &&
              (op == OpCeil ==> r.Floor as real == r && r - 1.0 < v <= r)
    {
      thrown := None;
      var p := stackPtr - 1;
      var v := stack[p];
      CeilBounds(v);
      match op
      case OpNeg => stack[p] := -v;
      case OpAcos => if v < -1.0 || v > 1.0 { return Some(AcosInvalidRange(v)); } stack[p] := lib.acos(v);
      case OpAsin => if v < -1.0 || v > 1.0 { return Some(AsinInvalidRange(v)); } stack[p] := lib.asin(v);
      case OpAtan => stack[p] := lib.atan(v);
      case OpCeil => stack[p] := Ceil(v);
      case OpCos => stack[p] := lib.cos(v);
      case OpCosh => stack[p] := lib.cosh(v);
      case OpExp => stack[p] := lib.exp(v);
      case OpFabs => stack[p] := Fabs(v);
      case OpFloor => stack[p] := Floor(v);
      case OpLog => if v <= 0.0 { return Some(LogNegativeValue(v)); } stack[p] := lib.log(v);
      case OpLog10 => if v <= 0.0 { return Some(Log10NegativeValue(v)); } stack[p] := lib.log10(v);
      case OpSin => stack[p] := lib.sin(v);
      case OpSinh => stack[p] := lib.sinh(v);
      case OpSqrt => if v < 0.0 { return Some(SqrtNegativeValue(v)); } stack[p] := lib.sqrt(v);
      case OpTan => stack[p] := lib.tan(v);
      case OpTanh => stack[p] := lib.tanh(v);
    }

    /** The instructions that combine the two topmost cells. */
    method ExecuteBinary(op: ByteCode) returns (thrown: Option<MathError>)
      requires IsBinary(op) && 2 <= stackPtr <= stack.Length
      modifies this`stackPtr, stack
      ensures stackPtr == old(stackPtr) - 1
      ensures var n := stackPtr - 1;
              var r := OnTopTwo(lib, op, old(stack[stackPtr - 2]), old(stack[stackPtr - 1]));
              if r.Ok? then thrown == None && stack[..stackPtr] == old(stack[..stackPtr - 2]) + [r.v]
              else thrown == Some(r.error)
      ensures thrown == Some(DivisionBy0) <==> op == OpDiv && old(stack[stackPtr - 1]) == 0.0
      ensures var a, b, r := old(stack[stackPtr - 2]), old(stack[stackPtr - 1]), stack[stackPtr - 1];
              (op == OpMax ==> r >= a && r >= b && (r == a || r == b)) &&
              (op == OpMin ==> r <= a && r <= b && (r == a || r == b)) &&
              (op == OpAdd ==> r - b == a) && (op == OpSub ==> r + b == a) &&
              (op == OpDiv && b != 0.0 ==> r * b == a)
    {
      thrown := None;
      stackPtr := stackPtr - 1;
      var p := stackPtr - 1;
      var a, b := stack[p], stack[p + 1];
      match op {
        case OpAdd => stack[p] := a + b;
        case OpSub => stack[p] := a - b;
        case OpMul => stack[p] := a * b;
        case OpDiv => if b == 0.0 { return Some(DivisionBy0); } stack[p] := a / b;
        case OpMin => stack[p] := Min(a, b);
        case OpMax => stack[p] := Max(a, b);
        case OpPow => stack[p] := lib.pow(a, b);
        case OpHypot => stack[p] := lib.hypot(a, b);
      }
      assert OnTopTwo(lib, op, a, b) == Ok(stack[p]);
      assert stack[..p + 1] == old(stack[..stackPtr - 2]) + [stack[p]];
    }

    /** The instruction op_fp. */
    method PushLiteral(v: real)
      requires stackPtr < stack.Length
      modifies this`stackPtr, stack
      ensures stackPtr == old(stackPtr) + 1 && stack[..stackPtr] == old(stack[..stackPtr]) + [v]
    {
      stack[stackPtr] := v;
      stackPtr := stackPtr + 1;
    }

    /** One turn of the loop: the switch on the instruction at `pc`. */
    method ExecuteOne(pc: nat) returns (next: nat, end: Option<Outcome>)
      requires pc < |code| && stackPtr <= stack.Length
      modifies this`stackPtr, stack
      ensures end.Some? ==>
        end.value == Run(lib, stack.Length, code, pc, old(stack[..stackPtr])) && !end.value.Finished?
      ensures end.None? ==>
        pc < next <= |code| && stackPtr <= stack.Length &&
        Run(lib, stack.Length, code, next, stack[..stackPtr])
          == Run(lib, stack.Length, code, pc, old(stack[..stackPtr]))
    {
      next, end := pc + 1, None;
      if code[pc].Literal? { return pc, Some(BadGet); }
      var op := code[pc].code;
      if op.OpTrap? { return pc, Some(Trapped); }
      if op.OpFp? {
        if next == |code| { return pc, Some(CodeOverread); }
        if code[next].Op? { return pc, Some(BadGet); }
        if stackPtr == stack.Length { return pc, Some(Overrun); }
        PushLiteral(code[next].value);
        next := next + 1;
      } else if IsUnary(op) {
        if stackPtr < 1 { return pc, Some(Underrun); }
        assert stack[..stackPtr][..stackPtr - 1] == stack[..stackPtr - 1];
        var thrown := ExecuteUnary(op);
        if thrown.Some? { return pc, Some(Threw(thrown.value)); }
      } else {
        if stackPtr < 2 { return pc, Some(Underrun); }
        assert stack[..stackPtr][..stackPtr - 2] == stack[..stackPtr - 2];
        var thrown := ExecuteBinary(op);
        if thrown.Some? { return pc, Some(Threw(thrown.value)); }
      }
    }

    method Execute() returns (outcome: Outcome)
      modifies this`stackPtr, stack
      ensures outcome == Run(lib, stack.Length, code, 0, [])
      ensures outcome.Finished? ==> stackPtr <= stack.Length && outcome.stack == stack[..stackPtr]
    {
      var pc := 0;
      stackPtr := 0;
      assert stack[..0] == [];
      while pc != |code|
        invariant 0 <= pc <= |code| && 0 <= stackPtr <= stack.Length
        invariant Run(lib, stack.Length, code, pc, stack[..stackPtr]) == Run(lib, stack.Length, code, 0, [])
        decreases |code| - pc
      {
        var next, end := ExecuteOne(pc);
        if end.Some? { return end.value; }
        pc := next;
      }
      return Finished(stack[..stackPtr]);
    }

    /** The result depends on the formula, the constants and the parameters alone: nothing an
        earlier call left in the code vector, on the stack or in the stack pointer matters. */
    method Evaluate(vm: ParameterMap) returns (r: Evaluation)
      requires Valid()
      modifies this, stack
      ensures r == EvaluationOf(lib, consts, Processed(toText, rawFormula, vm))
      ensures r == EmptyVector <==> exists i :: 0 <= i < |vm| && vm[i].values == []
    {
      code := [];
      stackPtr := 0;
      var formula := ReplacePlaceHolders(vm);
      if formula.None? { return EmptyVector; }
      var parsed := Parse(consts, formula.value);
      if parsed.None? { return ParseFailure; }
      VisitOperand(parsed.value);
      assert code == Compile(parsed.value);
      var outcome := Execute();
      match outcome
      case Finished(values) => return if |values| > 0 then Value(stack[0]) else Astray;
      case Threw(error) => return MathFailure(error);
      case Overrun => return StackOverrun;
      case _ => return Astray;
    }
  }

  // ----- what evaluation means -----

  /** A text that parses is evaluated to the value, or the first error, of its tree. */
  lemma EvaluationComputes(lib: MathLib, consts: Constants, text: string)
    ensures var parsed := Parse(consts, text);
            var r := EvaluationOf(lib, consts, Some(text));
            if parsed.Some? then Computes(lib, parsed.value, r) else r == ParseFailure
  {
    var parsed := Parse(consts, text);
    if parsed.Some? {
      CompiledFormula(lib, STACK_SIZE, parsed.value);
    }
  }

  ghost predicate ProperParameters(toText: real -> string, vm: ParameterMap) {
    forall i :: 0 <= i < |vm| ==>
      Braceless(vm[i].key) && forall j :: 0 <= j < |vm[i].values| ==> IsPlainNumeral(toText(vm[i].values[j]))
  }

  lemma IndexedNameBraceless(key: string, i: nat)
    requires Braceless(key)
    ensures Braceless(IndexedName(key, i))
  {
    NatTextRoundTrip(i);
    assert Braceless(NatText(i));
  }

  lemma {:induction false} IndexedProper(toText: real -> string, key: string, values: seq<real>, i: nat)
    requires i <= |values| && Braceless(key)
    requires forall j :: 0 <= j < |values| ==> IsPlainNumeral(toText(values[j]))
    ensures ProperBindings(IndexedBindings(toText, key, values, i))
    decreases |values| - i
  {
    if i < |values| {
      IndexedNameBraceless(key, i);
      IndexedProper(toText, key, values, i + 1);
    }
  }

  lemma {:induction false} BindingsProper(toText: real -> string, vm: ParameterMap)
    requires ProperParameters(toText, vm)
    ensures ProperBindings(Bindings(toText, vm))
  {
    if vm != [] {
      IndexedProper(toText, vm[0].key, vm[0].values, 0);
      BindingsProper(toText, vm[1..]);
    }
  }

  /** Evaluating a template with parameters computes the value of the template's own tree with
      the parameters as variables; it fails to parse exactly when a place holder is left over. */
  lemma TemplateComputes(lib: MathLib, consts: Constants, toText: real -> string, e: Sum, trailing: string,
      vm: ParameterMap)
    requires TemplateNames(consts) && ValidSum(consts, e) && PlainSum(e) && AllSpace(trailing)
    requires ProperParameters(toText, vm) && !HasEmptyVector(vm)
    ensures var r := EvaluationOf(lib, consts, Processed(toText, PrintSum(e, map[], trailing), vm));
            var sub := FirstWins(map[], Bindings(toText, vm));
            if BoundSum(e, sub) then
              var x := TreeSum(consts, Numbers(consts, sub), e);
              WellFormed(x) && Computes(lib, x, r)
            else r == ParseFailure
  {
    var bindings := Bindings(toText, vm);
    BindingsProper(toText, vm);
    SubstitutionMeaning(lib, consts, e, trailing, bindings);
    EvaluationComputes(lib, consts, PasteAll(PrintSum(e, map[], trailing), bindings));
  }
}
