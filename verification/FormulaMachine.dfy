/** The byte code of GFormulaParserT, the compiler from trees to code and the stack
    machine that runs it, with every way in which a run could go wrong made explicit. */
module FormulaMachine {
  import opened FormulaAst

  datatype ByteCode =
    | OpTrap | OpNeg | OpAdd | OpSub | OpMul | OpDiv
    | OpAcos | OpAsin | OpAtan | OpCeil | OpCos | OpCosh | OpExp | OpFabs | OpFloor
    | OpLog | OpLog10 | OpSin | OpSinh | OpSqrt | OpTan | OpTanh
    | OpPow | OpHypot | OpMin | OpMax | OpFp

  /** A cell of the code vector holds an instruction or a literal. */
  datatype CodeEntry = Op(code: ByteCode) | Literal(value: real)

  /** How a run ends. The last five are the ways in which code that is not the
      image of a tree could go astray: reading a literal as an instruction or the other
      way round (the variant's bad_get), op_trap, using cells in front of the stack or
      behind it, and reading behind the end of the code. */
  datatype Outcome =
    | Finished(stack: seq<real>)
    | Threw(error: MathError)
    | BadGet
    | Trapped
    | Underrun
    | Overrun
    | CodeOverread

  // ----- compilation -----

  function UnaryCode(u: UnaryName): ByteCode {
    match u
    case Acos => OpAcos case Asin => OpAsin case Atan => OpAtan case Ceiling => OpCeil
    case Cosh => OpCosh case Cos => OpCos case Exp => OpExp case Fabsolute => OpFabs
    case Floored => OpFloor case Log10 => OpLog10 case Log => OpLog case Sinh => OpSinh
    case Sin => OpSin case Sqrt => OpSqrt case Tanh => OpTanh case Tan => OpTan
  }

  function BinaryCode(b: BinaryName): ByteCode {
    match b
    case Minimum => OpMin case Maximum => OpMax case Pow => OpPow case Hypot => OpHypot
  }

  function OperatorCode(c: char): ByteCode
    requires IsOperator(c)
  {
    match c
    case '+' => OpAdd
    case '-' => OpSub
    case '*' => OpMul
    case _ => OpDiv
  }

  function Compile(x: Operand): seq<CodeEntry>
    requires WellFormed(x)
    decreases x
  {
    match x
    case Fp(v) => [Op(OpFp), Literal(v)]
    case Signed(sign, y) => Compile(y) + if sign == '-' then [Op(OpNeg)] else []
    case UnaryFunction(fname, y) => Compile(y) + [Op(UnaryCode(UnaryNamed(fname)))]
    case BinaryFunction(fname, y1, y2) => Compile(y1) + Compile(y2) + [Op(BinaryCode(BinaryNamed(fname)))]
    case AstExpression(first, rest) => Compile(first) + CompileRest(rest)
  }

  function CompileRest(rest: Operations): seq<CodeEntry>
    requires WellFormedRest(rest)
    decreases rest
  {
    match rest
    case End => []
    case Link(c, y, tail) => Compile(y) + [Op(OperatorCode(c))] + CompileRest(tail)
  }

  // ----- execution -----

  predicate IsUnary(op: ByteCode) { !op.OpTrap? && !op.OpFp? && !IsBinary(op) }

  /** What an instruction makes of the top of the stack. */
  function OnTop(lib: MathLib, op: ByteCode, v: real): Value
    requires IsUnary(op)
  {
    match op
    case OpNeg => Ok(-v)
    case OpAcos => if v < -1.0 || v > 1.0 then Err(AcosInvalidRange(v)) else Ok(lib.acos(v))
    case OpAsin => if v < -1.0 || v > 1.0 then Err(AsinInvalidRange(v)) else Ok(lib.asin(v))
    case OpAtan => Ok(lib.atan(v))
    case OpCeil => Ok(Ceil(v))
    case OpCos => Ok(lib.cos(v))
    case OpCosh => Ok(lib.cosh(v))
    case OpExp => Ok(lib.exp(v))
    case OpFabs => Ok(Fabs(v))
    case OpFloor => Ok(Floor(v))
    case OpLog => if v <= 0.0 then Err(LogNegativeValue(v)) else Ok(lib.log(v))
    case OpLog10 => if v <= 0.0 then Err(Log10NegativeValue(v)) else Ok(lib.log10(v))
    case OpSin => Ok(lib.sin(v))
    case OpSinh => Ok(lib.sinh(v))
    case OpSqrt => if v < 0.0 then Err(SqrtNegativeValue(v)) else Ok(lib.sqrt(v))
    case OpTan => Ok(lib.tan(v))
    case OpTanh => Ok(lib.tanh(v))
  }

  predicate IsBinary(op: ByteCode) {
    op.OpAdd? || op.OpSub? || op.OpMul? || op.OpDiv? || op.OpPow? || op.OpHypot? || op.OpMin? || op.OpMax?
  }

  /** What an instruction makes of the two topmost cells, `b` being the upper one. */
  function OnTopTwo(lib: MathLib, op: ByteCode, a: real, b: real): Value
    requires IsBinary(op)
  {
    match op
    case OpAdd => Ok(a + b)
    case OpSub => Ok(a - b)
    case OpMul => Ok(a * b)
    case OpDiv => if b == 0.0 then Err(DivisionBy0) else Ok(a / b)
    case OpMin => Ok(Min(a, b))
    case OpMax => Ok(Max(a, b))
    case OpPow => Ok(lib.pow(a, b))
    case OpHypot => Ok(lib.hypot(a, b))
  }

  /** The machine: `pc` is the code pointer, `stack` the cells below the stack pointer. */
  function Run(lib: MathLib, capacity: nat, code: seq<CodeEntry>, pc: nat, stack: seq<real>): Outcome
    requires pc <= |code|
    decreases |code| - pc
  {
    if pc == |code| then Finished(stack)
    else if code[pc].Literal? then BadGet
    else
      var op := code[pc].code;
      var n := |stack|;
      if op.OpTrap? then Trapped
      else if op.OpFp? then
        if pc + 1 == |code| then CodeOverread
        else if code[pc + 1].Op? then BadGet
        else if n >= capacity then Overrun
        else Run(lib, capacity, code, pc + 2, stack + [code[pc + 1].value])
      else if IsUnary(op) then
        if n < 1 then Underrun else
        var r := OnTop(lib, op, stack[n - 1]);
        if r.Err? then Threw(r.error) else Run(lib, capacity, code, pc + 1, stack[..n - 1] + [r.v])
      else
        if n < 2 then Underrun else
        var r := OnTopTwo(lib, op, stack[n - 2], stack[n - 1]);
        if r.Err? then Threw(r.error) else Run(lib, capacity, code, pc + 1, stack[..n - 2] + [r.v])
  }

  // ----- compiler correctness -----

  /** `fragment` sits in `code` at `pc`. */
  ghost predicate CodeAt(code: seq<CodeEntry>, pc: nat, fragment: seq<CodeEntry>) {
    pc + |fragment| <= |code| && code[pc..pc + |fragment|] == fragment
  }

  lemma CodeAtSplit(code: seq<CodeEntry>, pc: nat, a: seq<CodeEntry>, b: seq<CodeEntry>)
    requires CodeAt(code, pc, a + b)
    ensures CodeAt(code, pc, a) && CodeAt(code, pc + |a|, b)
  {
    assert code[pc..pc + |a + b|][..|a|] == a;
    assert code[pc..pc + |a + b|][|a|..] == b;
  }

  /** From `pc` on, the machine behaves as if the value `r` of a tree were computed in one go
      with `cells` further cells, and execution continued at `next`: with enough room it pushes
      the value or throws the error; without, it runs over the stack. */
  ghost predicate Simulates(lib: MathLib, capacity: nat, code: seq<CodeEntry>, pc: nat, next: nat,
                            stack: seq<real>, base: seq<real>, cells: nat, r: Value)
    requires pc <= |code| && next <= |code|
  {
    Run(lib, capacity, code, pc, stack) ==
    if |base| + cells > capacity then Overrun
    else if r.Ok? then Run(lib, capacity, code, next, base + [r.v])
    else Threw(r.error)
  }

  lemma UnaryCodeAgrees(lib: MathLib, u: UnaryName, v: real)
    ensures IsUnary(UnaryCode(u)) && OnTop(lib, UnaryCode(u), v) == ApplyUnary(lib, u, v)
  {
  }

  lemma BinaryCodeAgrees(lib: MathLib, b: BinaryName, x: real, y: real)
    ensures IsBinary(BinaryCode(b)) && OnTopTwo(lib, BinaryCode(b), x, y) == Ok(ApplyBinary(lib, b, x, y))
  {
  }

  /** One unary instruction at `pc`, with its operand on the stack. */
  lemma RunUnary(lib: MathLib, capacity: nat, code: seq<CodeEntry>, pc: nat, stack: seq<real>, v: real, op: ByteCode)
    requires pc < |code| && code[pc] == Op(op) && IsUnary(op)
    ensures var r := OnTop(lib, op, v);
            Run(lib, capacity, code, pc, stack + [v]) ==
            if r.Ok? then Run(lib, capacity, code, pc + 1, stack + [r.v]) else Threw(r.error)
  {
    assert (stack + [v])[..|stack|] == stack;
  }

  lemma RunBinary(lib: MathLib, capacity: nat, code: seq<CodeEntry>, pc: nat, stack: seq<real>, a: real, b: real,
      op: ByteCode)
    requires pc < |code| && code[pc] == Op(op) && IsBinary(op)
    ensures var r := OnTopTwo(lib, op, a, b);
            Run(lib, capacity, code, pc, stack + [a] + [b]) ==
            if r.Ok? then Run(lib, capacity, code, pc + 1, stack + [r.v]) else Threw(r.error)
  {
    assert (stack + [a] + [b])[..|stack|] == stack;
  }

  /** Compiler correctness, for every tree, any code around it and any current stack. */
  lemma {:induction false} CompiledOperand(lib: MathLib, capacity: nat, code: seq<CodeEntry>, pc: nat, x: Operand,
      stack: seq<real>)
    requires WellFormed(x) && CodeAt(code, pc, Compile(x))
    ensures Simulates(lib, capacity, code, pc, pc + |Compile(x)|, stack, stack, Reached(lib, x), Eval(lib, x))
    decreases x, 3
  {
    match x
    case Fp(_) => CompiledLiteral(lib, capacity, code, pc, x, stack);
    case Signed(_, _) => CompiledSigned(lib, capacity, code, pc, x, stack);
    case UnaryFunction(_, _) => CompiledUnary(lib, capacity, code, pc, x, stack);
    case BinaryFunction(_, _, _) => CompiledBinary(lib, capacity, code, pc, x, stack);
    case AstExpression(_, _) => CompiledExpression(lib, capacity, code, pc, x, stack);
  }

  lemma RunLiteral(lib: MathLib, capacity: nat, code: seq<CodeEntry>, pc: nat, stack: seq<real>, v: real)
    requires CodeAt(code, pc, [Op(OpFp), Literal(v)])
    ensures Run(lib, capacity, code, pc, stack) ==
            if |stack| < capacity then Run(lib, capacity, code, pc + 2, stack + [v]) else Overrun
  {
    assert code[pc] == code[pc..pc + 2][0] && code[pc + 1] == code[pc..pc + 2][1];
  }

  lemma CompiledLiteral(lib: MathLib, capacity: nat, code: seq<CodeEntry>, pc: nat, x: Operand, stack: seq<real>)
    requires x.Fp? && CodeAt(code, pc, Compile(x))
    ensures Simulates(lib, capacity, code, pc, pc + |Compile(x)|, stack, stack, Reached(lib, x), Eval(lib, x))
  {
    RunLiteral(lib, capacity, code, pc, stack, x.value);
  }

  // The steps of the proof speak of any code `cy` that behaves like a tree with value `r` that
  // reaches `n` cells.

  lemma SignedRuns(lib: MathLib, capacity: nat, code: seq<CodeEntry>, pc: nat, cy: seq<CodeEntry>, negated: bool,
                   stack: seq<real>, n: nat, r: Value)
    requires CodeAt(code, pc, cy + if negated then [Op(OpNeg)] else [])
    requires Simulates(lib, capacity, code, pc, pc + |cy|, stack, stack, n, r)
    ensures Simulates(lib, capacity, code, pc, pc + |cy| + if negated then 1 else 0, stack, stack, n,
                      if r.Ok? && negated then Ok(-r.v) else r)
  {
    if r.Ok? && negated {
      var at := pc + |cy|;
      CodeAtSplit(code, pc, cy, [Op(OpNeg)]);
      assert code[at] == code[at..at + 1][0];
      RunUnary(lib, capacity, code, at, stack, r.v, OpNeg);
    }
  }

  lemma UnaryRuns(lib: MathLib, capacity: nat, code: seq<CodeEntry>, pc: nat, cy: seq<CodeEntry>, op: ByteCode,
                  stack: seq<real>, n: nat, r: Value)
    requires IsUnary(op) && CodeAt(code, pc, cy + [Op(op)])
    requires Simulates(lib, capacity, code, pc, pc + |cy|, stack, stack, n, r)
    ensures Simulates(lib, capacity, code, pc, pc + |cy| + 1, stack, stack, n, if r.Ok? then OnTop(lib, op, r.v) else r)
  {
    if r.Ok? {
      var at := pc + |cy|;
      CodeAtSplit(code, pc, cy, [Op(op)]);
      assert code[at] == code[at..at + 1][0];
      RunUnary(lib, capacity, code, at, stack, r.v, op);
    }
  }

  /** Two operands, one after the other, and an instruction that combines them. */
  lemma BinaryRuns(lib: MathLib, capacity: nat, code: seq<CodeEntry>, pc: nat, c1: seq<CodeEntry>, c2: seq<CodeEntry>,
                   op: ByteCode, stack: seq<real>, n1: nat, r1: Value, n2: nat, r2: Value)
    requires IsBinary(op) && CodeAt(code, pc, c1 + c2 + [Op(op)])
    requires Simulates(lib, capacity, code, pc, pc + |c1|, stack, stack, n1, r1)
    requires r1.Ok? ==>
      Simulates(lib, capacity, code, pc + |c1|, pc + |c1| + |c2|, stack + [r1.v], stack + [r1.v], n2, r2)
    ensures Simulates(lib, capacity, code, pc, pc + |c1| + |c2| + 1, stack, stack,
                      if r1.Err? then n1 else MaxNat(n1, 1 + n2),
                      if r1.Err? then r1 else if r2.Err? then r2 else OnTopTwo(lib, op, r1.v, r2.v))
  {
    if r1.Ok? && r2.Ok? {
      var at := pc + |c1| + |c2|;
      CodeAtSplit(code, pc, c1 + c2, [Op(op)]);
      assert code[at] == code[at..at + 1][0];
      RunBinary(lib, capacity, code, at, stack, r1.v, r2.v, op);
    }
  }

  /** An operand is added to what is on the stack; then the rest of a chain follows. */
  lemma LinkRuns(lib: MathLib, capacity: nat, code: seq<CodeEntry>, pc: nat, cy: seq<CodeEntry>, op: ByteCode,
                 ct: seq<CodeEntry>, stack: seq<real>, acc: real, n: nat, r: Value, s: Value, m: nat, t: Value)
    requires IsBinary(op) && |stack| < capacity && CodeAt(code, pc, cy + [Op(op)] + ct)
    requires Simulates(lib, capacity, code, pc, pc + |cy|, stack + [acc], stack + [acc], n, r)
    requires r.Ok? ==> s == OnTopTwo(lib, op, acc, r.v)
    requires r.Ok? && s.Ok? ==>
      Simulates(lib, capacity, code, pc + |cy| + 1, pc + |cy| + 1 + |ct|, stack + [s.v], stack, MaxNat(1, m), t)
    ensures Simulates(lib, capacity, code, pc, pc + |cy| + 1 + |ct|, stack + [acc], stack,
                      if r.Err? || s.Err? then 1 + n else MaxNat(1 + n, m),
                      if r.Err? then r else if s.Err? then s else t)
  {
    if r.Ok? {
      var at := pc + |cy|;
      CodeAtSplit(code, pc, cy + [Op(op)], ct);
      CodeAtSplit(code, pc, cy, [Op(op)]);
      assert code[at] == code[at..at + 1][0];
      RunBinary(lib, capacity, code, at, stack, acc, r.v, op);
    }
  }

  /** A first operand and a chain. */
  lemma ChainRuns(lib: MathLib, capacity: nat, code: seq<CodeEntry>, pc: nat, middle: nat, next: nat, stack: seq<real>,
                  n: nat, r: Value, m: nat, t: Value)
    requires pc <= |code| && middle <= |code| && next <= |code| && n >= 1
    requires Simulates(lib, capacity, code, pc, middle, stack, stack, n, r)
    requires r.Ok? && |stack| + n <= capacity ==>
      Simulates(lib, capacity, code, middle, next, stack + [r.v], stack, MaxNat(1, m), t)
    ensures Simulates(lib, capacity, code, pc, next, stack, stack,
                      if r.Err? then n else MaxNat(n, m), if r.Err? then r else t)
  {
  }

  lemma {:induction false} CompiledExpression(lib: MathLib, capacity: nat, code: seq<CodeEntry>, pc: nat, x: Operand,
      stack: seq<real>)
    requires x.AstExpression? && WellFormed(x) && CodeAt(code, pc, Compile(x))
    ensures Simulates(lib, capacity, code, pc, pc + |Compile(x)|, stack, stack, Reached(lib, x), Eval(lib, x))
    decreases x, 1
  {
    var middle, n, r, m, t := CompiledParts(lib, capacity, code, pc, x, stack);
    ChainRuns(lib, capacity, code, pc, middle, pc + |Compile(x)|, stack, n, r, m, t);
  }

  /** The first operand and the chain of an expression. */
  lemma {:induction false} CompiledParts(lib: MathLib, capacity: nat, code: seq<CodeEntry>, pc: nat, x: Operand,
      stack: seq<real>)
    returns (middle: nat, n: nat, r: Value, m: nat, t: Value)
    requires x.AstExpression? && WellFormed(x) && CodeAt(code, pc, Compile(x))
    ensures Reached(lib, x) == (if r.Err? then n else MaxNat(n, m)) && Eval(lib, x) == if r.Err? then r else t
    ensures n >= 1 && middle <= |code| && Simulates(lib, capacity, code, pc, middle, stack, stack, n, r)
    ensures r.Ok? && |stack| + n <= capacity ==>
      Simulates(lib, capacity, code, middle, pc + |Compile(x)|, stack + [r.v], stack, MaxNat(1, m), t)
    decreases x, 0
  {
    var first, rest := x.first, x.rest;
    middle, n, r := pc + |Compile(first)|, Reached(lib, first), Eval(lib, first);
    m, t := 0, r;
    CodeAtSplit(code, pc, Compile(first), CompileRest(rest));
    CompiledOperand(lib, capacity, code, pc, first, stack);
    ReachedPositive(lib, first);
    if r.Ok? {
      m, t := ReachedRest(lib, r.v, rest), EvalRest(lib, r.v, rest);
      if |stack| + n <= capacity {
        CompiledRest(lib, capacity, code, middle, rest, stack, r.v);
      }
    }
  }

  lemma {:induction false} CompiledSigned(lib: MathLib, capacity: nat, code: seq<CodeEntry>, pc: nat, x: Operand,
      stack: seq<real>)
    requires x.Signed? && WellFormed(x) && CodeAt(code, pc, Compile(x))
    ensures Simulates(lib, capacity, code, pc, pc + |Compile(x)|, stack, stack, Reached(lib, x), Eval(lib, x))
    decreases x, 0
  {
    var y := x.operand;
    CodeAtSplit(code, pc, Compile(y), if x.sign == '-' then [Op(OpNeg)] else []);
    CompiledOperand(lib, capacity, code, pc, y, stack);
    SignedRuns(lib, capacity, code, pc, Compile(y), x.sign == '-', stack, Reached(lib, y), Eval(lib, y));
  }

  lemma {:induction false} CompiledUnary(lib: MathLib, capacity: nat, code: seq<CodeEntry>, pc: nat, x: Operand,
      stack: seq<real>)
    requires x.UnaryFunction? && WellFormed(x) && CodeAt(code, pc, Compile(x))
    ensures Simulates(lib, capacity, code, pc, pc + |Compile(x)|, stack, stack, Reached(lib, x), Eval(lib, x))
    decreases x, 0
  {
    var y, op := x.operand, UnaryCode(UnaryNamed(x.fname));
    UnaryFound(x.fname);
    CodeAtSplit(code, pc, Compile(y), [Op(op)]);
    CompiledOperand(lib, capacity, code, pc, y, stack);
    UnaryCodeAgrees(lib, UnaryNamed(x.fname), 0.0);
    UnaryRuns(lib, capacity, code, pc, Compile(y), op, stack, Reached(lib, y), Eval(lib, y));
    var r := Eval(lib, y);
    if r.Ok? { UnaryCodeAgrees(lib, UnaryNamed(x.fname), r.v); }
  }

  lemma {:induction false} CompiledBinary(lib: MathLib, capacity: nat, code: seq<CodeEntry>, pc: nat, x: Operand,
      stack: seq<real>)
    requires x.BinaryFunction? && WellFormed(x) && CodeAt(code, pc, Compile(x))
    ensures Simulates(lib, capacity, code, pc, pc + |Compile(x)|, stack, stack, Reached(lib, x), Eval(lib, x))
    decreases x, 2
  {
    var c1, c2, n1, r1, n2, r2 := BinaryMeans(lib, x);
    var op := BinaryCode(BinaryNamed(x.fname));
    CompiledArguments(lib, capacity, code, pc, x, op, stack, c1, c2, n1, r1, n2, r2);
  }

  /** How a binary function is made up of its operands. */
  lemma BinaryMeans(lib: MathLib, x: Operand)
    returns (c1: seq<CodeEntry>, c2: seq<CodeEntry>, n1: nat, r1: Value, n2: nat, r2: Value)
    requires x.BinaryFunction? && WellFormed(x)
    ensures WellFormed(x.operand1) && WellFormed(x.operand2)
    ensures c1 == Compile(x.operand1) && n1 == Reached(lib, x.operand1) && r1 == Eval(lib, x.operand1)
    ensures c2 == Compile(x.operand2) && n2 == Reached(lib, x.operand2) && r2 == Eval(lib, x.operand2)
    ensures var op := BinaryCode(BinaryNamed(x.fname));
            IsBinary(op) && Compile(x) == c1 + c2 + [Op(op)] &&
            Reached(lib, x) == (if r1.Err? then n1 else MaxNat(n1, 1 + n2)) &&
            Eval(lib, x) == if r1.Err? then r1 else if r2.Err? then r2 else OnTopTwo(lib, op, r1.v, r2.v)
  {
    c1, n1, r1 := Compile(x.operand1), Reached(lib, x.operand1), Eval(lib, x.operand1);
    c2, n2, r2 := Compile(x.operand2), Reached(lib, x.operand2), Eval(lib, x.operand2);
    BinaryFound(x.fname);
    BinaryCodeAgrees(lib, BinaryNamed(x.fname), if r1.Ok? then r1.v else 0.0, if r2.Ok? then r2.v else 0.0);
  }

  lemma CodeOfOperands(code: seq<CodeEntry>, pc: nat, c1: seq<CodeEntry>, c2: seq<CodeEntry>, op: ByteCode)
    requires CodeAt(code, pc, c1 + c2 + [Op(op)])
    ensures CodeAt(code, pc, c1) && CodeAt(code, pc + |c1|, c2)
  {
    CodeAtSplit(code, pc, c1 + c2, [Op(op)]);
    CodeAtSplit(code, pc, c1, c2);
  }

  /** One of the operands of a binary function. */
  lemma {:induction false} CompiledArgument(lib: MathLib, capacity: nat, code: seq<CodeEntry>, pc: nat, x: Operand,
      y: Operand, stack: seq<real>, cy: seq<CodeEntry>, n: nat, r: Value)
    requires x.BinaryFunction? && (y == x.operand1 || y == x.operand2) && WellFormed(y)
    requires cy == Compile(y) && n == Reached(lib, y) && r == Eval(lib, y) && CodeAt(code, pc, cy)
    ensures Simulates(lib, capacity, code, pc, pc + |cy|, stack, stack, n, r)
    decreases x, 0
  {
    CompiledOperand(lib, capacity, code, pc, y, stack);
  }

  /** Both, and the instruction that combines them. */
  lemma {:induction false} CompiledArguments(lib: MathLib, capacity: nat, code: seq<CodeEntry>, pc: nat, x: Operand,
      op: ByteCode, stack: seq<real>, c1: seq<CodeEntry>, c2: seq<CodeEntry>, n1: nat, r1: Value, n2: nat, r2: Value)
    requires x.BinaryFunction? && WellFormed(x.operand1) && WellFormed(x.operand2)
    requires c1 == Compile(x.operand1) && n1 == Reached(lib, x.operand1) && r1 == Eval(lib, x.operand1)
    requires c2 == Compile(x.operand2) && n2 == Reached(lib, x.operand2) && r2 == Eval(lib, x.operand2)
    requires IsBinary(op) && CodeAt(code, pc, c1 + c2 + [Op(op)])
    ensures Simulates(lib, capacity, code, pc, pc + |c1| + |c2| + 1, stack, stack,
                      if r1.Err? then n1 else MaxNat(n1, 1 + n2),
                      if r1.Err? then r1 else if r2.Err? then r2 else OnTopTwo(lib, op, r1.v, r2.v))
    decreases x, 1
  {
    CodeOfOperands(code, pc, c1, c2, op);
    CompiledArgument(lib, capacity, code, pc, x, x.operand1, stack, c1, n1, r1);
    if r1.Ok? {
      CompiledArgument(lib, capacity, code, pc + |c1|, x, x.operand2, stack + [r1.v], c2, n2, r2);
    }
    BinaryRuns(lib, capacity, code, pc, c1, c2, op, stack, n1, r1, n2, r2);
  }

  lemma {:induction false} CompiledRest(lib: MathLib, capacity: nat, code: seq<CodeEntry>, pc: nat,
                                        rest: Operations, stack: seq<real>, acc: real)
    requires WellFormedRest(rest) && CodeAt(code, pc, CompileRest(rest))
    requires |stack| < capacity
    ensures Simulates(lib, capacity, code, pc, pc + |CompileRest(rest)|, stack + [acc], stack,
                      MaxNat(1, ReachedRest(lib, acc, rest)), EvalRest(lib, acc, rest))
    decreases rest, 1
  {
    if rest.Link? {
      var cy, n, r := CompiledFirst(lib, capacity, code, pc, rest, stack, acc);
      var ct, s, m, t := CompiledTail(lib, capacity, code, pc, rest, stack, acc, cy, n, r);
      LinkRuns(lib, capacity, code, pc, cy, OperatorCode(rest.operator_), ct, stack, acc, n, r, s, m, t);
    }
  }

  /** The operand of a link. */
  lemma {:induction false} CompiledFirst(lib: MathLib, capacity: nat, code: seq<CodeEntry>, pc: nat,
                                         rest: Operations, stack: seq<real>, acc: real)
    returns (cy: seq<CodeEntry>, n: nat, r: Value)
    requires rest.Link? && WellFormedRest(rest) && CodeAt(code, pc, CompileRest(rest))
    ensures cy == Compile(rest.operand) && n == Reached(lib, rest.operand) && r == Eval(lib, rest.operand)
    ensures pc + |cy| <= |code| && Simulates(lib, capacity, code, pc, pc + |cy|, stack + [acc], stack + [acc], n, r)
    decreases rest, 0
  {
    var op := OperatorCode(rest.operator_);
    cy, n, r := Compile(rest.operand), Reached(lib, rest.operand), Eval(lib, rest.operand);
    CodeAtSplit(code, pc, cy + [Op(op)], CompileRest(rest.tail));
    CodeAtSplit(code, pc, cy, [Op(op)]);
    CompiledOperand(lib, capacity, code, pc, rest.operand, stack + [acc]);
  }

  /** What comes after it, and how the chain is made up of both. */
  lemma {:induction false} CompiledTail(lib: MathLib, capacity: nat, code: seq<CodeEntry>, pc: nat, rest: Operations,
                                        stack: seq<real>, acc: real, cy: seq<CodeEntry>, n: nat, r: Value)
    returns (ct: seq<CodeEntry>, s: Value, m: nat, t: Value)
    requires rest.Link? && WellFormedRest(rest) && CodeAt(code, pc, CompileRest(rest)) && |stack| < capacity
    requires cy == Compile(rest.operand) && n == Reached(lib, rest.operand) && r == Eval(lib, rest.operand)
    ensures CompileRest(rest) == cy + [Op(OperatorCode(rest.operator_))] + ct
    ensures r.Ok? ==> s == OnTopTwo(lib, OperatorCode(rest.operator_), acc, r.v)
    ensures ReachedRest(lib, acc, rest) == if r.Err? || s.Err? then 1 + n else MaxNat(1 + n, m)
    ensures EvalRest(lib, acc, rest) == if r.Err? then r else if s.Err? then s else t
    ensures r.Ok? && s.Ok? ==>
      Simulates(lib, capacity, code, pc + |cy| + 1, pc + |cy| + 1 + |ct|, stack + [s.v], stack, MaxNat(1, m), t)
    decreases rest, 0
  {
    var c, tail := rest.operator_, rest.tail;
    ct := CompileRest(tail);
    s := if r.Ok? then ApplyOperator(c, acc, r.v) else r;
    m, t := 0, s;
    if r.Ok? && s.Ok? {
      CodeAtSplit(code, pc, cy + [Op(OperatorCode(c))], ct);
      CompiledRest(lib, capacity, code, pc + |cy| + 1, tail, stack, s.v);
      m, t := ReachedRest(lib, s.v, tail), EvalRest(lib, s.v, tail);
    }
  }

  // ----- whole formulas -----

  /** Running compiled code computes the tree's value or throws its first error when the stack
      has as many cells as evaluation reaches, and otherwise writes behind the stack. In no case
      is a literal taken for an instruction, the trap hit, the stack underrun or the end of the
      code passed. */
  lemma CompiledFormula(lib: MathLib, capacity: nat, x: Operand)
    requires WellFormed(x)
    ensures var r := Eval(lib, x);
            Run(lib, capacity, Compile(x), 0, []) ==
            if Reached(lib, x) > capacity then Overrun else if r.Ok? then Finished([r.v]) else Threw(r.error)
  {
    CompiledOperand(lib, capacity, Compile(x), 0, x, []);
  }

  /** The high-water mark of a run is what evaluation reaches, which is the depth of the tree
      unless there is an error: exactly that many cells are enough. */
  lemma DepthIsHighWaterMark(lib: MathLib, capacity: nat, x: Operand)
    requires WellFormed(x)
    ensures Run(lib, capacity, Compile(x), 0, []) == Overrun <==> Reached(lib, x) > capacity
    ensures Reached(lib, x) <= Depth(x) && (Eval(lib, x).Ok? ==> Reached(lib, x) == Depth(x))
  {
    CompiledFormula(lib, capacity, x);
    ReachedIsDepth(lib, x);
  }

  /** 1+(1+(...+(1+1))) with `n` operators, in the shape the grammar gives it. */
  function RightNested(n: nat): Operand {
    var literal := AstExpression(Fp(1.0), End);
    AstExpression(literal, if n == 0 then End else Link('+', AstExpression(RightNested(n - 1), End), End))
  }

  lemma {:induction false} RightNestedDepth(lib: MathLib, n: nat)
    ensures WellFormed(RightNested(n)) && Depth(RightNested(n)) == n + 1
    ensures Eval(lib, RightNested(n)) == Ok((n + 1) as real)
  {
    if n > 0 {
      RightNestedDepth(lib, n - 1);
      assert EvalRest(lib, n as real, End) == Ok(n as real);
    }
  }

  /** The fixed stack is too small for some formulas: each further nested sum takes a cell. */
  lemma DeepFormulaOverruns(lib: MathLib, capacity: nat, n: nat)
    ensures WellFormed(RightNested(n))
    ensures Run(lib, capacity, Compile(RightNested(n)), 0, []) == Overrun <==> n >= capacity
  {
    RightNestedDepth(lib, n);
    DepthIsHighWaterMark(lib, capacity, RightNested(n));
  }
}
