/** The abstract syntax tree of GFormulaParserT and what a tree means: its value,
    computed from left to right, or the first domain error met on the way. */
module FormulaAst {

  /** The alternatives of the parser's variant type `operand`. */
  datatype Operand =
    | Nil
    | Fp(value: real)
    | Signed(sign: char, operand: Operand)
    | UnaryFunction(fname: string, operand: Operand)
    | BinaryFunction(fname: string, operand1: Operand, operand2: Operand)
    | AstExpression(first: Operand, rest: Operations)

  /** The list of (operator, operand) pairs that follows the first operand. */
  datatype Operations = End | Link(operator_: char, operand: Operand, tail: Operations)

  /** The exceptions derived from math_logic_error, with the value they report. */
  datatype MathError =
    | DivisionBy0
    | AcosInvalidRange(v: real)
    | AsinInvalidRange(v: real)
    | LogNegativeValue(v: real)
    | Log10NegativeValue(v: real)
    | SqrtNegativeValue(v: real)

  datatype Value = Ok(v: real) | Err(error: MathError)

  /** The functions of the C++ mathematics library, about which nothing is assumed. */
  datatype MathLib = MathLib(
    acos: real -> real, asin: real -> real, atan: real -> real,
    cos: real -> real, cosh: real -> real, exp: real -> real,
    log: real -> real, log10: real -> real,
    sin: real -> real, sinh: real -> real, sqrt: real -> real,
    tan: real -> real, tanh: real -> real,
    pow: (real, real) -> real, hypot: (real, real) -> real)

  function Fabs(v: real): real { if v < 0.0 then -v else v }
  function Floor(v: real): real { v.Floor as real }
  function Ceil(v: real): real { -((-v).Floor as real) }
  function Min(a: real, b: real): real { if a < b then a else b }
  function Max(a: real, b: real): real { if a < b then b else a }

  /** The integer that is not below and less than 1 above. */
  lemma CeilBounds(v: real)
    ensures var c := Ceil(v); c.Floor as real == c && c - 1.0 < v <= c
  {
    var n := -(-v).Floor;
    assert Ceil(v) == n as real && (n as real).Floor == n;
  }

  /** In the order in which the grammar tries them. */
  const UNARY_NAMES: seq<string> := [
    "acos", "asin", "atan", "ceil", "cosh", "cos", "exp", "fabs", "floor",
    "log10", "log", "sinh", "sin", "sqrt", "tanh", "tan"]
  const BINARY_NAMES: seq<string> := ["min", "max", "pow", "hypot"]

  datatype UnaryName =
    | Acos | Asin | Atan | Ceiling | Cosh | Cos | Exp | Fabsolute | Floored
    | Log10 | Log | Sinh | Sin | Sqrt | Tanh | Tan

  datatype BinaryName = Minimum | Maximum | Pow | Hypot

  function UnaryText(u: UnaryName): string {
    match u
    case Acos => "acos" case Asin => "asin" case Atan => "atan" case Ceiling => "ceil"
    case Cosh => "cosh" case Cos => "cos" case Exp => "exp" case Fabsolute => "fabs"
    case Floored => "floor" case Log10 => "log10" case Log => "log" case Sinh => "sinh"
    case Sin => "sin" case Sqrt => "sqrt" case Tanh => "tanh" case Tan => "tan"
  }

  function BinaryText(b: BinaryName): string {
    match b
    case Minimum => "min" case Maximum => "max" case Pow => "pow" case Hypot => "hypot"
  }

  /** The comparisons of a name with one text after the other. */
  function UnaryNamed(fname: string): UnaryName
    requires fname in UNARY_NAMES
  {
    if fname == "acos" then Acos
    else if fname == "asin" then Asin
    else if fname == "atan" then Atan
    else if fname == "ceil" then Ceiling
    else if fname == "cos" then Cos
    else if fname == "cosh" then Cosh
    else if fname == "exp" then Exp
    else if fname == "fabs" then Fabsolute
    else if fname == "floor" then Floored
    else if fname == "log" then Log
    else if fname == "log10" then Log10
    else if fname == "sin" then Sin
    else if fname == "sinh" then Sinh
    else if fname == "sqrt" then Sqrt
    else if fname == "tan" then Tan
    else Tanh
  }

  function BinaryNamed(fname: string): BinaryName
    requires fname in BINARY_NAMES
  {
    if fname == "min" then Minimum
    else if fname == "max" then Maximum
    else if fname == "pow" then Pow
    else Hypot
  }

  /** Every name is taken for the function it is the text of. */
  lemma UnaryMeansItself(fname: string)
    requires fname in UNARY_NAMES
    ensures UnaryText(UnaryNamed(fname)) == fname
  {
  }

  lemma BinaryMeansItself(fname: string)
    requires fname in BINARY_NAMES
    ensures BinaryText(BinaryNamed(fname)) == fname
  {
  }

  /** And the text of every function for that function. */
  lemma UnaryReadBack(u: UnaryName)
    ensures UnaryText(u) in UNARY_NAMES && UnaryNamed(UnaryText(u)) == u
  {
  }

  lemma BinaryReadBack(b: BinaryName)
    ensures BinaryText(b) in BINARY_NAMES && BinaryNamed(BinaryText(b)) == b
  {
  }

  /** The function with this name, however it is found. */
  ghost function UnaryMeant(fname: string): (u: UnaryName)
    requires fname in UNARY_NAMES
    ensures UnaryText(u) == fname
  {
    UnaryMeansItself(fname);
    var u :| UnaryText(u) == fname;
    u
  }

  ghost function BinaryMeant(fname: string): (b: BinaryName)
    requires fname in BINARY_NAMES
    ensures BinaryText(b) == fname
  {
    BinaryMeansItself(fname);
    var b :| BinaryText(b) == fname;
    b
  }

  /** The comparisons find the function with the name. */
  lemma UnaryFound(fname: string)
    requires fname in UNARY_NAMES
    ensures UnaryNamed(fname) == UnaryMeant(fname)
  {
    UnaryReadBack(UnaryMeant(fname));
  }

  lemma BinaryFound(fname: string)
    requires fname in BINARY_NAMES
    ensures BinaryNamed(fname) == BinaryMeant(fname)
  {
    BinaryReadBack(BinaryMeant(fname));
  }

  predicate IsOperator(c: char) { c == '+' || c == '-' || c == '*' || c == '/' }

  /** The trees the compile visitors accept without running into an assertion. */
  predicate WellFormed(x: Operand) {
    match x
    case Nil => false
    case Fp(_) => true
    case Signed(sign, y) => (sign == '+' || sign == '-') && WellFormed(y)
    case UnaryFunction(fname, y) => fname in UNARY_NAMES && WellFormed(y)
    case BinaryFunction(fname, y1, y2) => fname in BINARY_NAMES && WellFormed(y1) && WellFormed(y2)
    case AstExpression(first, rest) => WellFormed(first) && WellFormedRest(rest)
  }

  predicate WellFormedRest(rest: Operations) {
    match rest
    case End => true
    case Link(c, y, tail) => IsOperator(c) && WellFormed(y) && WellFormedRest(tail)
  }

  function ApplyUnary(lib: MathLib, u: UnaryName, v: real): Value {
    match u
    case Acos => if v < -1.0 || v > 1.0 then Err(AcosInvalidRange(v)) else Ok(lib.acos(v))
    case Asin => if v < -1.0 || v > 1.0 then Err(AsinInvalidRange(v)) else Ok(lib.asin(v))
    case Log => if v <= 0.0 then Err(LogNegativeValue(v)) else Ok(lib.log(v))
    case Log10 => if v <= 0.0 then Err(Log10NegativeValue(v)) else Ok(lib.log10(v))
    case Sqrt => if v < 0.0 then Err(SqrtNegativeValue(v)) else Ok(lib.sqrt(v))
    case Atan => Ok(lib.atan(v))
    case Ceiling => Ok(Ceil(v))
    case Cos => Ok(lib.cos(v))
    case Cosh => Ok(lib.cosh(v))
    case Exp => Ok(lib.exp(v))
    case Fabsolute => Ok(Fabs(v))
    case Floored => Ok(Floor(v))
    case Sin => Ok(lib.sin(v))
    case Sinh => Ok(lib.sinh(v))
    case Tan => Ok(lib.tan(v))
    case Tanh => Ok(lib.tanh(v))
  }

  function ApplyBinary(lib: MathLib, b: BinaryName, x: real, y: real): real {
    match b
    case Minimum => Min(x, y)
    case Maximum => Max(x, y)
    case Pow => lib.pow(x, y)
    case Hypot => lib.hypot(x, y)
  }

  function ApplyOperator(c: char, a: real, b: real): Value
    requires IsOperator(c)
  {
    match c
    case '+' => Ok(a + b)
    case '-' => Ok(a - b)
    case '*' => Ok(a * b)
    case _ => if b == 0.0 then Err(DivisionBy0) else Ok(a / b)
  }

  /** The meaning of a tree: functions are those that have the names in the tree, and operands
      are taken from left to right, stopping at the first error. */
  ghost function Eval(lib: MathLib, x: Operand): Value
    requires WellFormed(x)
    decreases x
  {
    match x
    case Fp(v) => Ok(v)
    case Signed(sign, y) =>
      var r := Eval(lib, y);
      if r.Ok? && sign == '-' then Ok(-r.v) else r
    case UnaryFunction(fname, y) =>
      var r := Eval(lib, y);
      if r.Ok? then ApplyUnary(lib, UnaryMeant(fname), r.v) else r
    case BinaryFunction(fname, y1, y2) =>
      var r1 := Eval(lib, y1);
      if r1.Err? then r1 else
      var r2 := Eval(lib, y2);
      if r2.Err? then r2 else Ok(ApplyBinary(lib, BinaryMeant(fname), r1.v, r2.v))
    case AstExpression(first, rest) =>
      var r := Eval(lib, first);
      if r.Ok? then EvalRest(lib, r.v, rest) else r
  }

  /** Operators associate to the left: `acc` is the value of everything already read. */
  ghost function EvalRest(lib: MathLib, acc: real, rest: Operations): Value
    requires WellFormedRest(rest)
    decreases rest
  {
    match rest
    case End => Ok(acc)
    case Link(c, y, tail) =>
      var r := Eval(lib, y);
      if r.Err? then r else
      var s := ApplyOperator(c, acc, r.v);
      if s.Ok? then EvalRest(lib, s.v, tail) else s
  }

  function MaxNat(a: nat, b: nat): nat { if a < b then b else a }

  /** How many stack cells the evaluation of a tree needs. */
  function Depth(x: Operand): nat {
    match x
    case Nil => 0
    case Fp(_) => 1
    case Signed(_, y) => Depth(y)
    case UnaryFunction(_, y) => Depth(y)
    case BinaryFunction(_, y1, y2) => MaxNat(Depth(y1), 1 + Depth(y2))
    case AstExpression(first, rest) => MaxNat(Depth(first), DepthRest(rest))
  }

  function DepthRest(rest: Operations): nat {
    match rest
    case End => 0
    case Link(_, y, tail) => MaxNat(1 + Depth(y), DepthRest(tail))
  }

  /** How many stack cells evaluation uses before it ends, with the value or at the first
      error: Depth, for the part of the tree that is visited. */
  ghost function Reached(lib: MathLib, x: Operand): nat
    requires WellFormed(x)
    decreases x
  {
    match x
    case Fp(_) => 1
    case Signed(_, y) => Reached(lib, y)
    case UnaryFunction(_, y) => Reached(lib, y)
    case BinaryFunction(_, y1, y2) =>
      if Eval(lib, y1).Err? then Reached(lib, y1) else MaxNat(Reached(lib, y1), 1 + Reached(lib, y2))
    case AstExpression(first, rest) =>
      var r := Eval(lib, first);
      if r.Err? then Reached(lib, first) else MaxNat(Reached(lib, first), ReachedRest(lib, r.v, rest))
  }

  ghost function ReachedRest(lib: MathLib, acc: real, rest: Operations): nat
    requires WellFormedRest(rest)
    decreases rest
  {
    match rest
    case End => 0
    case Link(c, y, tail) =>
      var r := Eval(lib, y);
      if r.Err? then 1 + Reached(lib, y) else
      var s := ApplyOperator(c, acc, r.v);
      if s.Err? then 1 + Reached(lib, y) else MaxNat(1 + Reached(lib, y), ReachedRest(lib, s.v, tail))
  }

  /** Without an error the whole tree is visited; an error leaves out what comes after it. */
  lemma {:induction false} ReachedIsDepth(lib: MathLib, x: Operand)
    requires WellFormed(x)
    ensures 1 <= Reached(lib, x) <= Depth(x) && (Eval(lib, x).Ok? ==> Reached(lib, x) == Depth(x))
    decreases x
  {
    match x
    case Fp(_) =>
    case Signed(_, y) => ReachedIsDepth(lib, y);
    case UnaryFunction(_, y) => ReachedIsDepth(lib, y);
    case BinaryFunction(_, y1, y2) =>
      ReachedIsDepth(lib, y1);
      ReachedIsDepth(lib, y2);
    case AstExpression(first, rest) =>
      ReachedIsDepth(lib, first);
      var r := Eval(lib, first);
      if r.Ok? { ReachedRestIsDepth(lib, r.v, rest); }
  }

  lemma {:induction false} ReachedRestIsDepth(lib: MathLib, acc: real, rest: Operations)
    requires WellFormedRest(rest)
    ensures ReachedRest(lib, acc, rest) <= DepthRest(rest)
    ensures EvalRest(lib, acc, rest).Ok? ==> ReachedRest(lib, acc, rest) == DepthRest(rest)
    decreases rest
  {
    match rest
    case End =>
    case Link(c, y, tail) =>
      ReachedIsDepth(lib, y);
      var r := Eval(lib, y);
      if r.Ok? {
        var s := ApplyOperator(c, acc, r.v);
        if s.Ok? { ReachedRestIsDepth(lib, s.v, tail); }
      }
  }

  lemma ReachedPositive(lib: MathLib, x: Operand)
    requires WellFormed(x)
    ensures Reached(lib, x) >= 1
  {
    ReachedIsDepth(lib, x);
  }
}
