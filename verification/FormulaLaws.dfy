/** What formulas evaluate to, said of their texts alone: the operators, signs, functions, errors
    and numerals, and the size of the stack. */
module FormulaLaws {
  import opened FormulaAst
  import opened Decimal
  import opened FormulaGrammar
  import opened FormulaSyntax
  import opened FormulaLanguage
  import opened FormulaMachine
  import opened FormulaParser
  import opened FormulaTokens
  import opened Wrappers

  // ----- texts and trees -----

  lemma {:induction false} SumAppends(e: Sum, a: string, b: string)
    ensures PrintSum(e, map[], a + b) == PrintSum(e, map[], a) + b
    decreases e, 0
  {
    SumTailAppends(e.rest, a, b);
    ProductAppends(e.first, PrintSumTail(e.rest, map[], a), b);
  }

  lemma {:induction false} SumTailAppends(e: SumTail, a: string, b: string)
    ensures PrintSumTail(e, map[], a + b) == PrintSumTail(e, map[], a) + b
    decreases e, 0
  {
    if e.NextTerm? {
      SumTailAppends(e.tail, a, b);
      ProductAppends(e.term, PrintSumTail(e.tail, map[], a), b);
      Associates3(e.pad, [e.op], PrintProduct(e.term, map[], PrintSumTail(e.tail, map[], a)), b);
    }
  }

  lemma {:induction false} ProductAppends(e: Product, a: string, b: string)
    ensures PrintProduct(e, map[], a + b) == PrintProduct(e, map[], a) + b
    decreases e, 0
  {
    ProductTailAppends(e.rest, a, b);
    FactorAppends(e.first, PrintProductTail(e.rest, map[], a), b);
  }

  lemma {:induction false} ProductTailAppends(e: ProductTail, a: string, b: string)
    ensures PrintProductTail(e, map[], a + b) == PrintProductTail(e, map[], a) + b
    decreases e, 0
  {
    if e.NextFactor? {
      ProductTailAppends(e.tail, a, b);
      FactorAppends(e.factor, PrintProductTail(e.tail, map[], a), b);
      Associates3(e.pad, [e.op], PrintFactor(e.factor, map[], PrintProductTail(e.tail, map[], a)), b);
    }
  }

  lemma {:induction false} FactorAppends(e: Factor, a: string, b: string)
    ensures PrintFactor(e, map[], a + b) == PrintFactor(e, map[], a) + b
    decreases e, 0
  {
    match e
    case Number(pad, text) => Associates3(pad, text, a, b);
    case Constant(pad, name) => Associates3(pad, name, a, b);
    case PlaceHolder(pad, key) => Associates3(pad, HolderText(key), a, b);
    case Group(pad, body, close) =>
      ClosedAppends(body, close, ")", a, b);
      Associates3(pad, "(", PrintSum(body, map[], close + (")" + a)), b);
    case SignOf(pad, sign, factor) =>
      FactorAppends(factor, a, b);
      Associates3(pad, [sign], PrintFactor(factor, map[], a), b);
    case Call1(pad, name, open, arg, close) =>
      ClosedAppends(arg, close, ")", a, b);
      Associates5(pad, name, open, PrintSum(arg, map[], close + (")" + a)), b);
    case Call2(pad, name, open, arg1, comma, arg2, close) =>
      ClosedAppends(arg2, close, ")", a, b);
      ClosedAppends(arg1, comma, ",", PrintSum(arg2, map[], close + (")" + a)), b);
      Associates5(pad, name, open, PrintSum(arg1, map[], comma + ("," + PrintSum(arg2, map[], close + (")" + a)))), b);
  }

  lemma {:induction false} ClosedAppends(e: Sum, close: string, token: string, a: string, b: string)
    ensures PrintSum(e, map[], close + (token + (a + b))) == PrintSum(e, map[], close + (token + a)) + b
    decreases e, 1
  {
    SumAppends(e, close + (token + a), b);
    assert close + (token + (a + b)) == (close + (token + a)) + b;
  }

  lemma Associates3(a: string, b: string, c: string, d: string)
    ensures a + (b + (c + d)) == (a + (b + c)) + d
  {
  }

  lemma Associates5(a: string, b: string, c: string, d: string, e: string)
    ensures a + (b + (c + ("(" + (d + e)))) == (a + (b + (c + ("(" + d)))) + e
  {
  }

  /** A text that parses, as a tree with white space behind it. */
  lemma TreeOf(consts: Constants, s: string) returns (e: Sum, close: string)
    requires PlainNames(consts) && Parse(consts, s).Some?
    ensures ValidSum(consts, e) && NoHolderSum(e) && AllSpace(close) && s == PrintSum(e, map[], close)
    ensures Parse(consts, s) == Some(TreeSum(consts, map[], e))
  {
    var x := Parse(consts, s).value;
    ParserIsExact(consts, s, x);
    e, close :| IsTextOf(consts, s, x, e, close);
  }

  // ----- values of trees -----

  function OfValue(r: FormulaAst.Value): Evaluation {
    if r.Ok? then Evaluation.Value(r.v) else MathFailure(r.error)
  }

  /** What the formula with this text evaluates to. */
  function Result(lib: MathLib, consts: Constants, text: string): Evaluation {
    EvaluationOf(lib, consts, Some(text))
  }

  predicate IsResult(r: Evaluation) { r.Value? || r.MathFailure? }

  /** The tree of a text that evaluates to a value or an error. */
  lemma TreeOfResult(lib: MathLib, consts: Constants, s: string) returns (e: Sum, close: string)
    requires PlainNames(consts) && IsResult(Result(lib, consts, s))
    ensures ValidSum(consts, e) && NoHolderSum(e) && AllSpace(close) && s == PrintSum(e, map[], close)
    ensures WellFormed(TreeSum(consts, map[], e))
    ensures OfValue(Eval(lib, TreeSum(consts, map[], e))) == Result(lib, consts, s)
  {
    EvaluationComputes(lib, consts, s);
    e, close := TreeOf(consts, s);
  }

  /** The result of a text that was made from trees. */
  lemma ResultOfTree(lib: MathLib, consts: Constants, e: Sum, close: string, text: string)
    requires PlainNames(consts) && ValidSum(consts, e) && NoHolderSum(e) && AllSpace(close)
    requires text == PrintSum(e, map[], close)
    ensures WellFormed(TreeSum(consts, map[], e))
    ensures var r := Result(lib, consts, text);
            r == OfValue(Eval(lib, TreeSum(consts, map[], e))) || r == StackOverrun
  {
    PlainIsApart(consts);
    RoundTrip(consts, e, close);
    EvaluationComputes(lib, consts, text);
  }

  /** A formula in brackets as a factor. */
  function Bracket(e: Sum, close: string): Factor { Group("", e, close) }

  lemma BracketPrints(e: Sum, close: string, s: string, rest: string)
    requires s == PrintSum(e, map[], close)
    ensures PrintFactor(Bracket(e, close), map[], rest) == "(" + s + ")" + rest
  {
    SumAppends(e, close, ")" + rest);
  }

  function OneFactor(f: Factor): Product { Product(f, NoMoreFactors) }

  function TwoFactors(f: Factor, op: char, g: Factor): Product { Product(f, NextFactor("", op, g, NoMoreFactors)) }

  function OneTerm(p: Product): Sum { Sum(p, NoMoreTerms) }

  ghost predicate Fits(consts: Constants, p: Product) {
    ValidProduct(consts, p) && NoHolderProduct(p) && WellFormed(TreeProduct(consts, map[], p))
  }

  ghost predicate FitsFactor(consts: Constants, f: Factor) {
    ValidFactor(consts, f) && NoHolderFactor(f) && WellFormed(TreeFactor(consts, map[], f))
  }

  lemma NoOperands(lib: MathLib, x: Operand)
    requires WellFormed(x)
    ensures WellFormed(AstExpression(x, End)) && Eval(lib, AstExpression(x, End)) == Eval(lib, x)
  {
  }

  lemma OneFactorFits(consts: Constants, f: Factor, rest: string)
    requires FitsFactor(consts, f)
    ensures ValidProduct(consts, OneFactor(f)) && NoHolderProduct(OneFactor(f))
    ensures TreeProduct(consts, map[], OneFactor(f)) == AstExpression(TreeFactor(consts, map[], f), End)
    ensures PrintProduct(OneFactor(f), map[], rest) == PrintFactor(f, map[], rest)
  {
    assert TreeProductTail(consts, map[], NoMoreFactors) == End && ValidProductTail(consts, NoMoreFactors);
    assert PrintProductTail(NoMoreFactors, map[], rest) == rest;
  }

  lemma OneFactorMeans(lib: MathLib, consts: Constants, f: Factor, rest: string)
    requires FitsFactor(consts, f)
    ensures Fits(consts, OneFactor(f)) && PrintProduct(OneFactor(f), map[], rest) == PrintFactor(f, map[], rest)
    ensures Eval(lib, TreeProduct(consts, map[], OneFactor(f))) == Eval(lib, TreeFactor(consts, map[], f))
  {
    OneFactorFits(consts, f, rest);
    NoOperands(lib, TreeFactor(consts, map[], f));
  }

  lemma OneTermMeans(lib: MathLib, consts: Constants, p: Product, rest: string)
    requires Fits(consts, p)
    ensures ValidSum(consts, OneTerm(p)) && NoHolderSum(OneTerm(p))
    ensures PrintSum(OneTerm(p), map[], rest) == PrintProduct(p, map[], rest)
    ensures WellFormed(TreeSum(consts, map[], OneTerm(p)))
    ensures Eval(lib, TreeSum(consts, map[], OneTerm(p))) == Eval(lib, TreeProduct(consts, map[], p))
  {
    assert TreeSumTail(consts, map[], NoMoreTerms) == End && ValidSumTail(consts, NoMoreTerms);
    assert PrintSumTail(NoMoreTerms, map[], rest) == rest;
  }

  /** A formula that is a single factor. */
  lemma FactorResult(lib: MathLib, consts: Constants, f: Factor, close: string, text: string)
    requires PlainNames(consts) && FitsFactor(consts, f) && AllSpace(close) && text == PrintFactor(f, map[], close)
    ensures var r := Result(lib, consts, text);
            r == OfValue(Eval(lib, TreeFactor(consts, map[], f))) || r == StackOverrun
  {
    OneFactorMeans(lib, consts, f, close);
    OneTermMeans(lib, consts, OneFactor(f), close);
    ResultOfTree(lib, consts, OneTerm(OneFactor(f)), close, text);
  }

  // ----- sums -----

  function AddTerm(e: SumTail, pad: string, op: char, p: Product): SumTail {
    match e
    case NoMoreTerms => NextTerm(pad, op, p, NoMoreTerms)
    case NextTerm(pad0, op0, term, tail) => NextTerm(pad0, op0, term, AddTerm(tail, pad, op, p))
  }

  lemma {:induction false} AddTermPrints(e: SumTail, pad: string, op: char, p: Product, rest: string)
    ensures PrintSumTail(AddTerm(e, pad, op, p), map[], rest) ==
            PrintSumTail(e, map[], pad + ([op] + PrintProduct(p, map[], rest)))
  {
    match e
    case NoMoreTerms => assert PrintSumTail(NoMoreTerms, map[], rest) == rest;
    case NextTerm(_, _, _, tail) => AddTermPrints(tail, pad, op, p, rest);
  }

  lemma {:induction false} AddTermFits(consts: Constants, e: SumTail, pad: string, op: char, p: Product)
    requires ValidSumTail(consts, e) && NoHolderSumTail(e) && AllSpace(pad) && IsSign(op)
    requires ValidProduct(consts, p) && NoHolderProduct(p)
    ensures ValidSumTail(consts, AddTerm(e, pad, op, p)) && NoHolderSumTail(AddTerm(e, pad, op, p))
  {
    match e
    case NoMoreTerms => assert ValidSumTail(consts, NoMoreTerms);
    case NextTerm(_, _, _, tail) => AddTermFits(consts, tail, pad, op, p);
  }

  /** The value of an operator on two values, the first error counting. */
  function Combined(op: char, x: FormulaAst.Value, y: FormulaAst.Value): FormulaAst.Value
    requires IsOperator(op)
  {
    if x.Err? then x else if y.Err? then y else ApplyOperator(op, x.v, y.v)
  }

  lemma {:induction false} AddTermMeans(lib: MathLib, consts: Constants, acc: real, e: SumTail, pad: string, op: char,
      p: Product)
    requires WellFormedRest(TreeSumTail(consts, map[], e)) && WellFormed(TreeProduct(consts, map[], p)) && IsSign(op)
    ensures var tree := TreeSumTail(consts, map[], AddTerm(e, pad, op, p));
            WellFormedRest(tree) &&
            EvalRest(lib, acc, tree) == Combined(op, EvalRest(lib, acc, TreeSumTail(consts, map[], e)),
                                                 Eval(lib, TreeProduct(consts, map[], p)))
    decreases e
  {
    match e
    case NoMoreTerms =>
      assert TreeSumTail(consts, map[], NoMoreTerms) == End;
    case NextTerm(_, c, term, tail) =>
      AddTermMeans(lib, consts, acc, tail, pad, op, p);
      var r := Eval(lib, TreeProduct(consts, map[], term));
      if r.Ok? {
        var s := ApplyOperator(c, acc, r.v);
        if s.Ok? { AddTermMeans(lib, consts, s.v, tail, pad, op, p); }
      }
  }

  function AppendTerm(e: Sum, pad: string, op: char, p: Product): Sum { Sum(e.first, AddTerm(e.rest, pad, op, p)) }

  lemma AppendTermMeans(lib: MathLib, consts: Constants, e: Sum, pad: string, op: char, p: Product)
    requires WellFormed(TreeSum(consts, map[], e)) && WellFormed(TreeProduct(consts, map[], p)) && IsSign(op)
    ensures var tree := TreeSum(consts, map[], AppendTerm(e, pad, op, p));
            WellFormed(tree) && Eval(lib, tree) == Combined(op, Eval(lib, TreeSum(consts, map[], e)),
                                                            Eval(lib, TreeProduct(consts, map[], p)))
  {
    AddTermMeans(lib, consts, 0.0, e.rest, pad, op, p);
    var r := Eval(lib, TreeProduct(consts, map[], e.first));
    if r.Ok? { AddTermMeans(lib, consts, r.v, e.rest, pad, op, p); }
  }

  /** A term behind any formula: what stands in front of the operator is its first operand. */
  lemma TermBehind(lib: MathLib, consts: Constants, s: string, op: char, p: Product, t: string, x: FormulaAst.Value)
    requires PlainNames(consts) && IsResult(Result(lib, consts, s)) && OfValue(x) == Result(lib, consts, s)
    requires IsSign(op) && Fits(consts, p) && t == PrintProduct(p, map[], "")
    ensures var r := Result(lib, consts, s + ([op] + t));
            r == OfValue(Combined(op, x, Eval(lib, TreeProduct(consts, map[], p)))) || r == StackOverrun
  {
    var e, close := TreeOfResult(lib, consts, s);
    var big := AppendTerm(e, close, op, p);
    AppendTermMeans(lib, consts, e, close, op, p);
    AddTermFits(consts, e.rest, close, op, p);
    AddTermPrints(e.rest, close, op, p, "");
    SumAppends(e, close, [op] + t);
    ResultOfTree(lib, consts, big, "", s + ([op] + t));
  }

  // ----- products -----

  /** A last operand, from the left. */
  lemma LastOperand(lib: MathLib, acc: real, op: char, y: Operand)
    requires IsOperator(op) && WellFormed(y)
    ensures WellFormedRest(Link(op, y, End))
    ensures EvalRest(lib, acc, Link(op, y, End)) == Combined(op, FormulaAst.Ok(acc), Eval(lib, y))
  {
    assert WellFormedRest(End) && forall v: real :: EvalRest(lib, v, End) == FormulaAst.Ok(v);
  }

  lemma TwoOperands(lib: MathLib, x: Operand, op: char, y: Operand)
    requires IsOperator(op) && WellFormed(x) && WellFormed(y)
    ensures var tree := AstExpression(x, Link(op, y, End));
            WellFormed(tree) && Eval(lib, tree) == Combined(op, Eval(lib, x), Eval(lib, y))
  {
    LastOperand(lib, 0.0, op, y);
    var r := Eval(lib, x);
    if r.Ok? { LastOperand(lib, r.v, op, y); }
  }

  lemma ThreeOperands(lib: MathLib, x: Operand, op: char, y: Operand, op2: char, z: Operand)
    requires IsOperator(op) && IsOperator(op2) && WellFormed(x) && WellFormed(y) && WellFormed(z)
    ensures var tree := AstExpression(x, Link(op, y, Link(op2, z, End)));
            WellFormed(tree) &&
            Eval(lib, tree) == Combined(op2, Combined(op, Eval(lib, x), Eval(lib, y)), Eval(lib, z))
  {
    LastOperand(lib, 0.0, op2, z);
    assert WellFormedRest(Link(op, y, Link(op2, z, End)));
    var r, q := Eval(lib, x), Eval(lib, y);
    if r.Ok? && q.Ok? {
      var s := ApplyOperator(op, r.v, q.v);
      if s.Ok? { LastOperand(lib, s.v, op2, z); }
    }
  }

  predicate IsProductOperator(op: char) { op == '*' || op == '/' }

  lemma TwoFactorsFit(consts: Constants, f: Factor, op: char, g: Factor)
    requires FitsFactor(consts, f) && FitsFactor(consts, g) && IsProductOperator(op)
    ensures ValidProduct(consts, TwoFactors(f, op, g)) && NoHolderProduct(TwoFactors(f, op, g))
    ensures TreeProduct(consts, map[], TwoFactors(f, op, g)) ==
            AstExpression(TreeFactor(consts, map[], f), Link(op, TreeFactor(consts, map[], g), End))
  {
    assert ValidProductTail(consts, NoMoreFactors) && NoHolderProductTail(NoMoreFactors);
    assert ValidProductTail(consts, NextFactor("", op, g, NoMoreFactors));
    assert TreeProductTail(consts, map[], NoMoreFactors) == End;
  }

  lemma TwoFactorsPrint(f: Factor, op: char, g: Factor, rest: string)
    ensures PrintProduct(TwoFactors(f, op, g), map[], rest) == PrintFactor(f, map[], [op] + PrintFactor(g, map[], rest))
  {
    assert PrintProductTail(NoMoreFactors, map[], rest) == rest;
    assert "" + ([op] + PrintFactor(g, map[], rest)) == [op] + PrintFactor(g, map[], rest);
  }

  lemma TwoFactorsMean(lib: MathLib, consts: Constants, f: Factor, op: char, g: Factor)
    requires FitsFactor(consts, f) && FitsFactor(consts, g) && IsProductOperator(op)
    ensures Fits(consts, TwoFactors(f, op, g))
    ensures Eval(lib, TreeProduct(consts, map[], TwoFactors(f, op, g))) ==
            Combined(op, Eval(lib, TreeFactor(consts, map[], f)), Eval(lib, TreeFactor(consts, map[], g)))
  {
    TwoFactorsFit(consts, f, op, g);
    TwoOperands(lib, TreeFactor(consts, map[], f), op, TreeFactor(consts, map[], g));
  }

  // ----- laws of operators -----

  lemma BracketFits(lib: MathLib, consts: Constants, e: Sum, close: string)
    requires ValidSum(consts, e) && NoHolderSum(e) && AllSpace(close) && WellFormed(TreeSum(consts, map[], e))
    ensures FitsFactor(consts, Bracket(e, close))
    ensures TreeFactor(consts, map[], Bracket(e, close)) == TreeSum(consts, map[], e)
  {
  }

  /** A text in brackets is a factor with the text's result. */
  lemma Bracketed(lib: MathLib, consts: Constants, s: string, rest: string) returns (f: Factor)
    requires PlainNames(consts) && IsResult(Result(lib, consts, s))
    ensures FitsFactor(consts, f) && !IsBareNumeral(f) && PrintFactor(f, map[], rest) == "(" + s + ")" + rest
    ensures OfValue(Eval(lib, TreeFactor(consts, map[], f))) == Result(lib, consts, s)
  {
    var e, close := TreeOfResult(lib, consts, s);
    f := Bracket(e, close);
    BracketFits(lib, consts, e, close);
    BracketPrints(e, close, s, rest);
  }

  function ValueOf(r: Evaluation): FormulaAst.Value
    requires IsResult(r)
  {
    if r.Value? then FormulaAst.Ok(r.v) else Err(r.error)
  }

  lemma BracketBehind(lib: MathLib, consts: Constants, s: string, op: char, t: string)
    requires PlainNames(consts) && IsSign(op)
    requires IsResult(Result(lib, consts, s)) && IsResult(Result(lib, consts, t))
    ensures var r := Result(lib, consts, s + ([op] + ("(" + t + ")")));
            r == OfValue(Combined(op, ValueOf(Result(lib, consts, s)), ValueOf(Result(lib, consts, t)))) ||
            r == StackOverrun
  {
    var f := Bracketed(lib, consts, t, "");
    assert "(" + t + ")" + "" == "(" + t + ")";
    OneFactorMeans(lib, consts, f, "");
    TermBehind(lib, consts, s, op, OneFactor(f), "(" + t + ")", ValueOf(Result(lib, consts, s)));
  }

  /** A term in brackets behind any formula is added to it or taken from it. */
  lemma SumLaw(lib: MathLib, consts: Constants, s: string, x: real, t: string, y: real)
    requires PlainNames(consts)
    requires Result(lib, consts, s) == Evaluation.Value(x) && Result(lib, consts, t) == Evaluation.Value(y)
    ensures var r := Result(lib, consts, s + ("+(" + t + ")")); r == Evaluation.Value(x + y) || r == StackOverrun
  {
    BracketBehind(lib, consts, s, '+', t);
    assert ['+'] + ("(" + t + ")") == "+(" + t + ")";
  }

  lemma DifferenceLaw(lib: MathLib, consts: Constants, s: string, x: real, t: string, y: real)
    requires PlainNames(consts)
    requires Result(lib, consts, s) == Evaluation.Value(x) && Result(lib, consts, t) == Evaluation.Value(y)
    ensures var r := Result(lib, consts, s + ("-(" + t + ")")); r == Evaluation.Value(x - y) || r == StackOverrun
  {
    BracketBehind(lib, consts, s, '-', t);
    assert ['-'] + ("(" + t + ")") == "-(" + t + ")";
  }

  lemma BracketsMultiplied(lib: MathLib, consts: Constants, s: string, op: char, t: string)
      returns (p: Product)
    requires PlainNames(consts) && IsProductOperator(op)
    requires IsResult(Result(lib, consts, s)) && IsResult(Result(lib, consts, t))
    ensures Fits(consts, p) && PrintProduct(p, map[], "") == "(" + s + ")" + ([op] + ("(" + t + ")"))
    ensures Eval(lib, TreeProduct(consts, map[], p)) ==
            Combined(op, ValueOf(Result(lib, consts, s)), ValueOf(Result(lib, consts, t)))
  {
    var g := Bracketed(lib, consts, t, "");
    assert "(" + t + ")" + "" == "(" + t + ")";
    var f := Bracketed(lib, consts, s, [op] + ("(" + t + ")"));
    p := TwoFactors(f, op, g);
    TwoFactorsMean(lib, consts, f, op, g);
    TwoFactorsPrint(f, op, g, "");
  }

  lemma ProductResult(lib: MathLib, consts: Constants, s: string, op: char, t: string)
    requires PlainNames(consts) && IsProductOperator(op)
    requires IsResult(Result(lib, consts, s)) && IsResult(Result(lib, consts, t))
    ensures var r := Result(lib, consts, "(" + s + ")" + ([op] + ("(" + t + ")")));
            r == OfValue(Combined(op, ValueOf(Result(lib, consts, s)), ValueOf(Result(lib, consts, t)))) ||
            r == StackOverrun
  {
    var p := BracketsMultiplied(lib, consts, s, op, t);
    OneTermMeans(lib, consts, p, "");
    ResultOfTree(lib, consts, OneTerm(p), "", "(" + s + ")" + ([op] + ("(" + t + ")")));
  }

  /** Factors in brackets are multiplied. */
  lemma ProductLaw(lib: MathLib, consts: Constants, s: string, x: real, t: string, y: real)
    requires PlainNames(consts)
    requires Result(lib, consts, s) == Evaluation.Value(x) && Result(lib, consts, t) == Evaluation.Value(y)
    ensures var r := Result(lib, consts, "(" + s + ")" + ("*(" + t + ")"));
            r == Evaluation.Value(x * y) || r == StackOverrun
  {
    ProductResult(lib, consts, s, '*', t);
    assert ['*'] + ("(" + t + ")") == "*(" + t + ")";
  }

  /** And divided; division by 0 is an exception. */
  lemma QuotientLaw(lib: MathLib, consts: Constants, s: string, x: real, t: string, y: real)
    requires PlainNames(consts)
    requires Result(lib, consts, s) == Evaluation.Value(x) && Result(lib, consts, t) == Evaluation.Value(y)
    ensures var r := Result(lib, consts, "(" + s + ")" + ("/(" + t + ")"));
            r == StackOverrun || r == if y == 0.0 then MathFailure(DivisionBy0) else Evaluation.Value(x / y)
  {
    ProductResult(lib, consts, s, '/', t);
    assert ['/'] + ("(" + t + ")") == "/(" + t + ")";
  }

  /** The product of two formulas in brackets, as a text and a term. */
  lemma ProductTerm(lib: MathLib, consts: Constants, t: string, y: real, u: string, z: real, product: real)
      returns (p: Product)
    requires PlainNames(consts) && product == y * z
    requires Result(lib, consts, t) == Evaluation.Value(y) && Result(lib, consts, u) == Evaluation.Value(z)
    ensures Fits(consts, p) && PrintProduct(p, map[], "") == "(" + t + ")*(" + u + ")"
    ensures Eval(lib, TreeProduct(consts, map[], p)) == FormulaAst.Ok(product)
  {
    p := BracketsMultiplied(lib, consts, t, '*', u);
    ProductText(t, u);
  }

  lemma ProductText(t: string, u: string)
    ensures "(" + t + ")" + (['*'] + ("(" + u + ")")) == "(" + t + ")*(" + u + ")"
  {
  }

  lemma QuotientText(s: string, t: string, u: string)
    ensures "(" + s + ")" + (['/'] + ("(" + t + ")" + (['*'] + ("(" + u + ")")))) ==
            "(" + s + ")/(" + t + ")*(" + u + ")"
  {
  }

  lemma MinusText(t: string, u: string)
    ensures "-" + ("(" + t + ")*(" + u + ")") == "-(" + t + ")*(" + u + ")"
  {
  }

  lemma Subtracted(x: real, y: real, difference: real)
    requires difference == x - y
    ensures OfValue(Combined('-', FormulaAst.Ok(x), FormulaAst.Ok(y))) == Evaluation.Value(difference)
  {
  }

  /** Products come before sums. */
  lemma PrecedenceLaw(lib: MathLib, consts: Constants, s: string, x: real, t: string, y: real, u: string, z: real,
      product: real)
    requires PlainNames(consts) && Result(lib, consts, s) == Evaluation.Value(x) && product == y * z
    requires Result(lib, consts, t) == Evaluation.Value(y) && Result(lib, consts, u) == Evaluation.Value(z)
    ensures var r := Result(lib, consts, s + ("-(" + t + ")*(" + u + ")"));
            r == Evaluation.Value(x - product) || r == StackOverrun
  {
    var p := ProductTerm(lib, consts, t, y, u, z, product);
    var text := "(" + t + ")*(" + u + ")";
    TermTaken(lib, consts, s, x, p, text, product);
    MinusText(t, u);
  }

  lemma TermTaken(lib: MathLib, consts: Constants, s: string, x: real, p: Product, text: string, y: real)
    requires PlainNames(consts) && Result(lib, consts, s) == Evaluation.Value(x)
    requires Fits(consts, p) && PrintProduct(p, map[], "") == text
    requires Eval(lib, TreeProduct(consts, map[], p)) == FormulaAst.Ok(y)
    ensures var r := Result(lib, consts, s + ("-" + text)); r == Evaluation.Value(x - y) || r == StackOverrun
  {
    TermBehind(lib, consts, s, '-', p, text, FormulaAst.Ok(x));
    Subtracted(x, y, x - y);
    assert ['-'] + text == "-" + text;
  }

  /** Whatever comes first in a text, its error counts. */
  lemma ErrorLaw(lib: MathLib, consts: Constants, s: string, t: string)
    requires PlainNames(consts) && IsResult(Result(lib, consts, s)) && IsResult(Result(lib, consts, t))
    requires Result(lib, consts, s).MathFailure? || Result(lib, consts, t).MathFailure?
    ensures var first := if Result(lib, consts, s).MathFailure? then Result(lib, consts, s) else Result(lib, consts, t);
            var r := Result(lib, consts, s + ("-(" + t + ")"));
            var q := Result(lib, consts, "(" + s + ")" + ("/(" + t + ")"));
            (r == first || r == StackOverrun) && (q == first || q == StackOverrun)
  {
    BracketBehind(lib, consts, s, '-', t);
    ProductResult(lib, consts, s, '/', t);
    assert ['-'] + ("(" + t + ")") == "-(" + t + ")";
    assert ['/'] + ("(" + t + ")") == "/(" + t + ")";
  }

  lemma SignResult(lib: MathLib, consts: Constants, s: string, sign: char)
    requires PlainNames(consts) && IsResult(Result(lib, consts, s)) && IsSign(sign)
    ensures var x := ValueOf(Result(lib, consts, s));
            var r := Result(lib, consts, [sign] + ("(" + s + ")"));
            r == OfValue(if x.Ok? && sign == '-' then FormulaAst.Ok(-x.v) else x) || r == StackOverrun
  {
    var f := Bracketed(lib, consts, s, "");
    assert "(" + s + ")" + "" == "(" + s + ")";
    var g := SignOf("", sign, f);
    assert FitsFactor(consts, g);
    FactorResult(lib, consts, g, "", [sign] + ("(" + s + ")"));
  }

  lemma SignLaw(lib: MathLib, consts: Constants, s: string, x: real)
    requires PlainNames(consts) && Result(lib, consts, s) == Evaluation.Value(x)
    ensures var r := Result(lib, consts, "-(" + s + ")"); r == Evaluation.Value(-x) || r == StackOverrun
  {
    SignResult(lib, consts, s, '-');
    assert ['-'] + ("(" + s + ")") == "-(" + s + ")";
  }

  lemma PlusLaw(lib: MathLib, consts: Constants, s: string, x: real)
    requires PlainNames(consts) && Result(lib, consts, s) == Evaluation.Value(x)
    ensures var r := Result(lib, consts, "+(" + s + ")"); r == Evaluation.Value(x) || r == StackOverrun
  {
    SignResult(lib, consts, s, '+');
    assert ['+'] + ("(" + s + ")") == "+(" + s + ")";
  }

  function ThreeFactors(f: Factor, op: char, g: Factor, op2: char, h: Factor): Product {
    Product(f, NextFactor("", op, g, NextFactor("", op2, h, NoMoreFactors)))
  }

  lemma ThreeFactorsFit(consts: Constants, f: Factor, op: char, g: Factor, op2: char, h: Factor)
    requires FitsFactor(consts, f) && FitsFactor(consts, g) && FitsFactor(consts, h)
    requires IsProductOperator(op) && IsProductOperator(op2)
    ensures var p := ThreeFactors(f, op, g, op2, h);
            ValidProduct(consts, p) && NoHolderProduct(p) &&
            TreeProduct(consts, map[], p) ==
            AstExpression(TreeFactor(consts, map[], f),
                          Link(op, TreeFactor(consts, map[], g), Link(op2, TreeFactor(consts, map[], h), End)))
  {
    var last := NextFactor("", op2, h, NoMoreFactors);
    assert ValidProductTail(consts, NoMoreFactors) && NoHolderProductTail(NoMoreFactors);
    assert TreeProductTail(consts, map[], NoMoreFactors) == End;
    assert ValidProductTail(consts, last) && NoHolderProductTail(last);
    assert TreeProductTail(consts, map[], last) == Link(op2, TreeFactor(consts, map[], h), End);
  }

  lemma LastFactorPrints(op: char, g: Factor, tail: ProductTail)
    ensures PrintProductTail(NoMoreFactors, map[], "") == ""
    ensures PrintProductTail(NextFactor("", op, g, tail), map[], "") ==
            [op] + PrintFactor(g, map[], PrintProductTail(tail, map[], ""))
  {
    var text := [op] + PrintFactor(g, map[], PrintProductTail(tail, map[], ""));
    assert "" + text == text;
  }

  lemma ThreeFactorsPrint(f: Factor, op: char, g: Factor, op2: char, h: Factor)
    ensures PrintProduct(ThreeFactors(f, op, g, op2, h), map[], "") ==
            PrintFactor(f, map[], [op] + PrintFactor(g, map[], [op2] + PrintFactor(h, map[], "")))
  {
    var last := NextFactor("", op2, h, NoMoreFactors);
    LastFactorPrints(op2, h, NoMoreFactors);
    LastFactorPrints(op, g, last);
  }

  lemma ThreeBrackets(lib: MathLib, consts: Constants, s: string, x: real, t: string, y: real, u: string, z: real)
      returns (p: Product)
    requires PlainNames(consts) && Result(lib, consts, s) == Evaluation.Value(x)
    requires Result(lib, consts, t) == Evaluation.Value(y) && Result(lib, consts, u) == Evaluation.Value(z)
    ensures Fits(consts, p)
    ensures PrintProduct(p, map[], "") == "(" + s + ")" + (['/'] + ("(" + t + ")" + (['*'] + ("(" + u + ")"))))
    ensures Eval(lib, TreeProduct(consts, map[], p)) ==
            Combined('*', Combined('/', FormulaAst.Ok(x), FormulaAst.Ok(y)), FormulaAst.Ok(z))
  {
    var last := ['*'] + ("(" + u + ")");
    var h := Bracketed(lib, consts, u, "");
    assert "(" + u + ")" + "" == "(" + u + ")";
    var g := Bracketed(lib, consts, t, last);
    var f := Bracketed(lib, consts, s, ['/'] + ("(" + t + ")" + last));
    p := ThreeFactors(f, '/', g, '*', h);
    ThreeFactorsFit(consts, f, '/', g, '*', h);
    ThreeFactorsPrint(f, '/', g, '*', h);
    ThreeOperands(lib, TreeFactor(consts, map[], f), '/', TreeFactor(consts, map[], g), '*',
                  TreeFactor(consts, map[], h));
  }

  lemma QuotientTimes(x: real, y: real, z: real, q: real)
    requires y != 0.0 && q == x / y * z
    ensures Combined('*', Combined('/', FormulaAst.Ok(x), FormulaAst.Ok(y)), FormulaAst.Ok(z)) == FormulaAst.Ok(q)
  {
  }

  lemma QuotientTerm(lib: MathLib, consts: Constants, s: string, x: real, t: string, y: real, u: string, z: real,
      q: real) returns (p: Product)
    requires PlainNames(consts) && Result(lib, consts, s) == Evaluation.Value(x)
    requires Result(lib, consts, t) == Evaluation.Value(y) && Result(lib, consts, u) == Evaluation.Value(z)
    requires y != 0.0 && q == x / y * z
    ensures Fits(consts, p) && PrintProduct(p, map[], "") == "(" + s + ")/(" + t + ")*(" + u + ")"
    ensures Eval(lib, TreeProduct(consts, map[], p)) == FormulaAst.Ok(q)
  {
    p := ThreeBrackets(lib, consts, s, x, t, y, u, z);
    QuotientTimes(x, y, z, q);
    QuotientText(s, t, u);
  }

  /** Divisions and multiplications are carried out from the left. */
  lemma FromLeftLaw(lib: MathLib, consts: Constants, s: string, x: real, t: string, y: real, u: string, z: real,
      q: real)
    requires PlainNames(consts) && Result(lib, consts, s) == Evaluation.Value(x)
    requires Result(lib, consts, t) == Evaluation.Value(y) && Result(lib, consts, u) == Evaluation.Value(z)
    requires y != 0.0 && q == x / y * z
    ensures var r := Result(lib, consts, "(" + s + ")/(" + t + ")*(" + u + ")");
            r == Evaluation.Value(q) || r == StackOverrun
  {
    var p := QuotientTerm(lib, consts, s, x, t, y, u, z, q);
    OneProduct(lib, consts, p, "(" + s + ")/(" + t + ")*(" + u + ")");
  }

  lemma OneProduct(lib: MathLib, consts: Constants, p: Product, text: string)
    requires PlainNames(consts) && Fits(consts, p) && text == PrintProduct(p, map[], "")
    ensures var r := Result(lib, consts, text);
            r == OfValue(Eval(lib, TreeProduct(consts, map[], p))) || r == StackOverrun
  {
    OneTermMeans(lib, consts, p, "");
    ResultOfTree(lib, consts, OneTerm(p), "", text);
  }

  // ----- laws of functions -----

  lemma CallPrints(e: Sum, close: string, s: string, name: string)
    requires s == PrintSum(e, map[], close)
    ensures PrintFactor(Call1("", name, "", e, close), map[], "") == name + ("(" + s + ")")
  {
    SumAppends(e, close, ")");
    assert ")" + "" == ")";
    assert "" + ("(" + (s + ")")) == "(" + s + ")";
  }

  /** A call of the function with this name. */
  lemma CallResult(lib: MathLib, consts: Constants, s: string, x: real, u: UnaryName, text: string)
    requires PlainNames(consts) && Result(lib, consts, s) == Evaluation.Value(x)
    requires text == UnaryText(u) + ("(" + s + ")")
    ensures var r := Result(lib, consts, text); r == OfValue(ApplyUnary(lib, u, x)) || r == StackOverrun
  {
    var e, close := TreeOfResult(lib, consts, s);
    var f := Call1("", UnaryText(u), "", e, close);
    UnaryReadBack(u);
    UnaryFound(UnaryText(u));
    CallFits(consts, e, close, UnaryText(u));
    CallPrints(e, close, s, UnaryText(u));
    FactorResult(lib, consts, f, "", text);
  }

  lemma CallFits(consts: Constants, e: Sum, close: string, name: string)
    requires ValidSum(consts, e) && NoHolderSum(e) && AllSpace(close) && WellFormed(TreeSum(consts, map[], e))
    requires name in UNARY_NAMES
    ensures FitsFactor(consts, Call1("", name, "", e, close))
    ensures TreeFactor(consts, map[], Call1("", name, "", e, close)) ==
            UnaryFunction(name, TreeSum(consts, map[], e))
  {
  }

  /** Each name calls the function of the library that has it; the stack may not have room. */
  lemma SinLaw(lib: MathLib, consts: Constants, s: string, x: real)
    requires PlainNames(consts) && Result(lib, consts, s) == Evaluation.Value(x)
    ensures var r := Result(lib, consts, "sin(" + s + ")");
            r == Evaluation.Value(lib.sin(x)) || r == StackOverrun
  {
    assert "sin(" + s + ")" == "sin" + ("(" + s + ")");
    CallResult(lib, consts, s, x, Sin, "sin(" + s + ")");
  }

  lemma CosLaw(lib: MathLib, consts: Constants, s: string, x: real)
    requires PlainNames(consts) && Result(lib, consts, s) == Evaluation.Value(x)
    ensures var r := Result(lib, consts, "cos(" + s + ")");
            r == Evaluation.Value(lib.cos(x)) || r == StackOverrun
  {
    assert "cos(" + s + ")" == "cos" + ("(" + s + ")");
    CallResult(lib, consts, s, x, Cos, "cos(" + s + ")");
  }

  lemma TanLaw(lib: MathLib, consts: Constants, s: string, x: real)
    requires PlainNames(consts) && Result(lib, consts, s) == Evaluation.Value(x)
    ensures var r := Result(lib, consts, "tan(" + s + ")");
            r == Evaluation.Value(lib.tan(x)) || r == StackOverrun
  {
    assert "tan(" + s + ")" == "tan" + ("(" + s + ")");
    CallResult(lib, consts, s, x, Tan, "tan(" + s + ")");
  }

  lemma AtanLaw(lib: MathLib, consts: Constants, s: string, x: real)
    requires PlainNames(consts) && Result(lib, consts, s) == Evaluation.Value(x)
    ensures var r := Result(lib, consts, "atan(" + s + ")");
            r == Evaluation.Value(lib.atan(x)) || r == StackOverrun
  {
    assert "atan(" + s + ")" == "atan" + ("(" + s + ")");
    CallResult(lib, consts, s, x, Atan, "atan(" + s + ")");
  }

  lemma SinhLaw(lib: MathLib, consts: Constants, s: string, x: real)
    requires PlainNames(consts) && Result(lib, consts, s) == Evaluation.Value(x)
    ensures var r := Result(lib, consts, "sinh(" + s + ")");
            r == Evaluation.Value(lib.sinh(x)) || r == StackOverrun
  {
    assert "sinh(" + s + ")" == "sinh" + ("(" + s + ")");
    CallResult(lib, consts, s, x, Sinh, "sinh(" + s + ")");
  }

  lemma CoshLaw(lib: MathLib, consts: Constants, s: string, x: real)
    requires PlainNames(consts) && Result(lib, consts, s) == Evaluation.Value(x)
    ensures var r := Result(lib, consts, "cosh(" + s + ")");
            r == Evaluation.Value(lib.cosh(x)) || r == StackOverrun
  {
    assert "cosh(" + s + ")" == "cosh" + ("(" + s + ")");
    CallResult(lib, consts, s, x, Cosh, "cosh(" + s + ")");
  }

  lemma TanhLaw(lib: MathLib, consts: Constants, s: string, x: real)
    requires PlainNames(consts) && Result(lib, consts, s) == Evaluation.Value(x)
    ensures var r := Result(lib, consts, "tanh(" + s + ")");
            r == Evaluation.Value(lib.tanh(x)) || r == StackOverrun
  {
    assert "tanh(" + s + ")" == "tanh" + ("(" + s + ")");
    CallResult(lib, consts, s, x, Tanh, "tanh(" + s + ")");
  }

  lemma ExpLaw(lib: MathLib, consts: Constants, s: string, x: real)
    requires PlainNames(consts) && Result(lib, consts, s) == Evaluation.Value(x)
    ensures var r := Result(lib, consts, "exp(" + s + ")");
            r == Evaluation.Value(lib.exp(x)) || r == StackOverrun
  {
    assert "exp(" + s + ")" == "exp" + ("(" + s + ")");
    CallResult(lib, consts, s, x, Exp, "exp(" + s + ")");
  }

  /** The functions that are not defined everywhere throw outside of their domains. */
  lemma AsinLaw(lib: MathLib, consts: Constants, s: string, x: real)
    requires PlainNames(consts) && Result(lib, consts, s) == Evaluation.Value(x)
    ensures var r := Result(lib, consts, "asin(" + s + ")");
            r == StackOverrun ||
            r == if -1.0 <= x <= 1.0 then Evaluation.Value(lib.asin(x)) else MathFailure(AsinInvalidRange(x))
  {
    assert "asin(" + s + ")" == "asin" + ("(" + s + ")");
    CallResult(lib, consts, s, x, Asin, "asin(" + s + ")");
  }

  lemma AcosLaw(lib: MathLib, consts: Constants, s: string, x: real)
    requires PlainNames(consts) && Result(lib, consts, s) == Evaluation.Value(x)
    ensures var r := Result(lib, consts, "acos(" + s + ")");
            r == StackOverrun ||
            r == if -1.0 <= x <= 1.0 then Evaluation.Value(lib.acos(x)) else MathFailure(AcosInvalidRange(x))
  {
    assert "acos(" + s + ")" == "acos" + ("(" + s + ")");
    CallResult(lib, consts, s, x, Acos, "acos(" + s + ")");
  }

  lemma LogLaw(lib: MathLib, consts: Constants, s: string, x: real)
    requires PlainNames(consts) && Result(lib, consts, s) == Evaluation.Value(x)
    ensures var r := Result(lib, consts, "log(" + s + ")");
            r == StackOverrun ||
            r == if x > 0.0 then Evaluation.Value(lib.log(x)) else MathFailure(LogNegativeValue(x))
  {
    assert "log(" + s + ")" == "log" + ("(" + s + ")");
    CallResult(lib, consts, s, x, Log, "log(" + s + ")");
  }

  lemma Log10Law(lib: MathLib, consts: Constants, s: string, x: real)
    requires PlainNames(consts) && Result(lib, consts, s) == Evaluation.Value(x)
    ensures var r := Result(lib, consts, "log10(" + s + ")");
            r == StackOverrun ||
            r == if x > 0.0 then Evaluation.Value(lib.log10(x)) else MathFailure(Log10NegativeValue(x))
  {
    assert "log10(" + s + ")" == "log10" + ("(" + s + ")");
    CallResult(lib, consts, s, x, Log10, "log10(" + s + ")");
  }

  lemma SqrtLaw(lib: MathLib, consts: Constants, s: string, x: real)
    requires PlainNames(consts) && Result(lib, consts, s) == Evaluation.Value(x)
    ensures var r := Result(lib, consts, "sqrt(" + s + ")");
            r == StackOverrun ||
            r == if x >= 0.0 then Evaluation.Value(lib.sqrt(x)) else MathFailure(SqrtNegativeValue(x))
  {
    assert "sqrt(" + s + ")" == "sqrt" + ("(" + s + ")");
    CallResult(lib, consts, s, x, Sqrt, "sqrt(" + s + ")");
  }

  /** The absolute value. */
  lemma FabsLaw(lib: MathLib, consts: Constants, s: string, x: real)
    requires PlainNames(consts) && Result(lib, consts, s) == Evaluation.Value(x)
    ensures var r := Result(lib, consts, "fabs(" + s + ")");
            r == StackOverrun || (r.Value? && r.v >= 0.0 && (r.v == x || r.v == -x))
  {
    assert "fabs(" + s + ")" == "fabs" + ("(" + s + ")");
    CallResult(lib, consts, s, x, Fabsolute, "fabs(" + s + ")");
  }

  /** The integer below. */
  lemma FloorLaw(lib: MathLib, consts: Constants, s: string, x: real)
    requires PlainNames(consts) && Result(lib, consts, s) == Evaluation.Value(x)
    ensures var r := Result(lib, consts, "floor(" + s + ")");
            r == StackOverrun || (r.Value? && r.v.Floor as real == r.v && r.v <= x < r.v + 1.0)
  {
    assert "floor(" + s + ")" == "floor" + ("(" + s + ")");
    CallResult(lib, consts, s, x, Floored, "floor(" + s + ")");
  }

  /** The integer above. */
  lemma CeilLaw(lib: MathLib, consts: Constants, s: string, x: real)
    requires PlainNames(consts) && Result(lib, consts, s) == Evaluation.Value(x)
    ensures var r := Result(lib, consts, "ceil(" + s + ")");
            r == StackOverrun || (r.Value? && r.v.Floor as real == r.v && r.v - 1.0 < x <= r.v)
  {
    assert "ceil(" + s + ")" == "ceil" + ("(" + s + ")");
    CeilBounds(x);
    CallResult(lib, consts, s, x, Ceiling, "ceil(" + s + ")");
  }

  lemma Call2Prints(e1: Sum, close1: string, s: string, e2: Sum, close2: string, t: string, name: string)
    requires s == PrintSum(e1, map[], close1) && t == PrintSum(e2, map[], close2)
    ensures PrintFactor(Call2("", name, "", e1, close1, e2, close2), map[], "") == name + ("(" + s + "," + t + ")")
  {
    SumAppends(e2, close2, ")");
    assert ")" + "" == ")";
    SumAppends(e1, close1, "," + (t + ")"));
    assert "" + ("(" + (s + ("," + (t + ")")))) == "(" + s + "," + t + ")";
  }

  lemma Call2Fits(consts: Constants, e1: Sum, close1: string, e2: Sum, close2: string, name: string)
    requires ValidSum(consts, e1) && NoHolderSum(e1) && AllSpace(close1) && WellFormed(TreeSum(consts, map[], e1))
    requires ValidSum(consts, e2) && NoHolderSum(e2) && AllSpace(close2) && WellFormed(TreeSum(consts, map[], e2))
    requires name in BINARY_NAMES
    ensures FitsFactor(consts, Call2("", name, "", e1, close1, e2, close2))
    ensures TreeFactor(consts, map[], Call2("", name, "", e1, close1, e2, close2)) ==
            BinaryFunction(name, TreeSum(consts, map[], e1), TreeSum(consts, map[], e2))
  {
  }

  lemma Call2Result(lib: MathLib, consts: Constants, s: string, x: real, t: string, y: real, b: BinaryName,
      text: string)
    requires PlainNames(consts) && Result(lib, consts, s) == Evaluation.Value(x)
    requires Result(lib, consts, t) == Evaluation.Value(y) && text == BinaryText(b) + ("(" + s + "," + t + ")")
    ensures var r := Result(lib, consts, text);
            r == Evaluation.Value(ApplyBinary(lib, b, x, y)) || r == StackOverrun
  {
    var e1, close1 := TreeOfResult(lib, consts, s);
    var e2, close2 := TreeOfResult(lib, consts, t);
    BinaryReadBack(b);
    BinaryFound(BinaryText(b));
    Call2Fits(consts, e1, close1, e2, close2, BinaryText(b));
    Call2Prints(e1, close1, s, e2, close2, t, BinaryText(b));
    FactorResult(lib, consts, Call2("", BinaryText(b), "", e1, close1, e2, close2), "", text);
  }

  /** The larger of two values. */
  lemma MaxLaw(lib: MathLib, consts: Constants, s: string, x: real, t: string, y: real)
    requires PlainNames(consts) && Result(lib, consts, s) == Evaluation.Value(x)
    requires Result(lib, consts, t) == Evaluation.Value(y)
    ensures var r := Result(lib, consts, "max(" + s + "," + t + ")");
            r == StackOverrun || (r.Value? && r.v >= x && r.v >= y && (r.v == x || r.v == y))
  {
    assert "max(" + s + "," + t + ")" == "max" + ("(" + s + "," + t + ")");
    Call2Result(lib, consts, s, x, t, y, Maximum, "max(" + s + "," + t + ")");
  }

  /** The smaller of two values. */
  lemma MinLaw(lib: MathLib, consts: Constants, s: string, x: real, t: string, y: real)
    requires PlainNames(consts) && Result(lib, consts, s) == Evaluation.Value(x)
    requires Result(lib, consts, t) == Evaluation.Value(y)
    ensures var r := Result(lib, consts, "min(" + s + "," + t + ")");
            r == StackOverrun || (r.Value? && r.v <= x && r.v <= y && (r.v == x || r.v == y))
  {
    assert "min(" + s + "," + t + ")" == "min" + ("(" + s + "," + t + ")");
    Call2Result(lib, consts, s, x, t, y, Minimum, "min(" + s + "," + t + ")");
  }

  /** The first argument is the base, the second the exponent. */
  lemma PowLaw(lib: MathLib, consts: Constants, s: string, x: real, t: string, y: real)
    requires PlainNames(consts) && Result(lib, consts, s) == Evaluation.Value(x)
    requires Result(lib, consts, t) == Evaluation.Value(y)
    ensures var r := Result(lib, consts, "pow(" + s + "," + t + ")");
            r == StackOverrun || (r.Value? && r.v == lib.pow(x, y))
  {
    assert "pow(" + s + "," + t + ")" == "pow" + ("(" + s + "," + t + ")");
    Call2Result(lib, consts, s, x, t, y, Pow, "pow(" + s + "," + t + ")");
  }

  lemma HypotLaw(lib: MathLib, consts: Constants, s: string, x: real, t: string, y: real)
    requires PlainNames(consts) && Result(lib, consts, s) == Evaluation.Value(x)
    requires Result(lib, consts, t) == Evaluation.Value(y)
    ensures var r := Result(lib, consts, "hypot(" + s + "," + t + ")");
            r == StackOverrun || (r.Value? && r.v == lib.hypot(x, y))
  {
    assert "hypot(" + s + "," + t + ")" == "hypot" + ("(" + s + "," + t + ")");
    Call2Result(lib, consts, s, x, t, y, Hypot, "hypot(" + s + "," + t + ")");
  }

  // ----- white space -----

  lemma SpacedPrints(e: Sum, close: string, s: string, pad: string, rest: string)
    requires s == PrintSum(e, map[], close)
    ensures PrintFactor(Group(pad, e, close), map[], rest) == pad + ("(" + s + ")" + rest)
  {
    SumAppends(e, close, ")" + rest);
  }

  /** White space may stand between any two tokens. */
  lemma SpaceLaw(lib: MathLib, consts: Constants, s: string, t: string, a: string, b: string, c: string, d: string)
    requires PlainNames(consts) && Result(lib, consts, s).Value? && Result(lib, consts, t).Value?
    requires forall x :: x in a || x in b || x in c || x in d ==>
      x == ' ' || x == '\t' || x == '\n' || x == '\r' || x == '\U{000B}' || x == '\U{000C}'
    ensures var r := Result(lib, consts, a + ("(" + s + ")" + (b + ("+" + (c + ("(" + t + ")" + d))))));
            r == Evaluation.Value(Result(lib, consts, s).v + Result(lib, consts, t).v) || r == StackOverrun
  {
    var e1, close1 := TreeOfResult(lib, consts, s);
    var e2, close2 := TreeOfResult(lib, consts, t);
    SpacesAreSpace(a);
    SpacesAreSpace(b);
    SpacesAreSpace(c);
    SpacesAreSpace(d);
    SpacedSum(lib, consts, e1, close1, s, e2, close2, t, a, b, c, d);
  }

  lemma SpacesAreSpace(w: string)
    requires forall x :: x in w ==>
      x == ' ' || x == '\t' || x == '\n' || x == '\r' || x == '\U{000B}' || x == '\U{000C}'
    ensures AllSpace(w)
  {
    forall i | 0 <= i < |w| ensures IsSpace(w[i]) {
      assert w[i] in w;
    }
  }

  lemma SpacedSum(lib: MathLib, consts: Constants, e1: Sum, close1: string, s: string, e2: Sum, close2: string,
      t: string, a: string, b: string, c: string, d: string)
    requires PlainNames(consts) && AllSpace(a) && AllSpace(b) && AllSpace(c) && AllSpace(d)
    requires ValidSum(consts, e1) && NoHolderSum(e1) && AllSpace(close1) && WellFormed(TreeSum(consts, map[], e1))
    requires ValidSum(consts, e2) && NoHolderSum(e2) && AllSpace(close2) && WellFormed(TreeSum(consts, map[], e2))
    requires s == PrintSum(e1, map[], close1) && t == PrintSum(e2, map[], close2)
    ensures var x, y := Eval(lib, TreeSum(consts, map[], e1)), Eval(lib, TreeSum(consts, map[], e2));
            var r := Result(lib, consts, a + ("(" + s + ")" + (b + ("+" + (c + ("(" + t + ")" + d))))));
            r == OfValue(Combined('+', x, y)) || r == StackOverrun
  {
    var f, g := Group(a, e1, close1), Group(c, e2, close2);
    var p, q := OneFactor(f), OneFactor(g);
    var second := c + ("(" + t + ")" + d);
    SpacedPrints(e2, close2, t, c, d);
    SpacedPrints(e1, close1, s, a, b + ("+" + second));
    SpacedFits(lib, consts, e1, close1, a, b + ("+" + second));
    SpacedFits(lib, consts, e2, close2, c, d);
    OneTermMeans(lib, consts, p, "");
    var big := AppendTerm(OneTerm(p), b, '+', q);
    AppendTermMeans(lib, consts, OneTerm(p), b, '+', q);
    AddTermFits(consts, NoMoreTerms, b, '+', q);
    AddTermPrints(NoMoreTerms, b, '+', q, d);
    assert PrintSumTail(NoMoreTerms, map[], b + (['+'] + second)) == b + (['+'] + second);
    ResultOfTree(lib, consts, big, d, a + ("(" + s + ")" + (b + ("+" + second))));
  }

  lemma SpacedFits(lib: MathLib, consts: Constants, e: Sum, close: string, pad: string, rest: string)
    requires ValidSum(consts, e) && NoHolderSum(e) && AllSpace(close) && WellFormed(TreeSum(consts, map[], e))
    requires AllSpace(pad)
    ensures var f := Group(pad, e, close);
            Fits(consts, OneFactor(f)) && PrintProduct(OneFactor(f), map[], rest) == PrintFactor(f, map[], rest) &&
            Eval(lib, TreeProduct(consts, map[], OneFactor(f))) == Eval(lib, TreeSum(consts, map[], e))
  {
    var f := Group(pad, e, close);
    assert FitsFactor(consts, f);
    OneFactorMeans(lib, consts, f, rest);
  }

  // ----- the size of the stack -----

  /** 1+(1+(...)) with `n` operators. */
  function NestedText(n: nat): string { if n == 0 then "1" else "1+(" + NestedText(n - 1) + ")" }

  function NestedTree(n: nat): Sum {
    Sum(OneFactor(Number("", "1")),
        if n == 0 then NoMoreTerms else NextTerm("", '+', OneFactor(Bracket(NestedTree(n - 1), "")), NoMoreTerms))
  }

  lemma OneIsOne(consts: Constants)
    ensures IsNumeral("1") && NumeralValue(consts, "1") == 1.0
  {
    assert "1"[1..] == "" && "1"[..1] == "1" && "1"[1..1] == "";
    assert DigitsValue("1") == 1;
    assert MantissaLength("1") == 1 && MantissaValue("1") == 1.0;
  }

  lemma NestedFits(consts: Constants, n: nat)
    ensures ValidProduct(consts, NestedTree(n).first) && NoHolderProduct(NestedTree(n).first)
    ensures TreeProduct(consts, map[], NestedTree(n).first) == AstExpression(Fp(1.0), End)
    ensures PrintProduct(OneFactor(Number("", "1")), map[], "") == "1"
  {
    OneIsOne(consts);
    assert ValidProductTail(consts, NoMoreFactors) && NoHolderProductTail(NoMoreFactors);
    assert TreeProductTail(consts, map[], NoMoreFactors) == End && PrintProductTail(NoMoreFactors, map[], "") == "";
  }

  lemma {:induction false} NestedValid(consts: Constants, n: nat)
    ensures ValidSum(consts, NestedTree(n)) && NoHolderSum(NestedTree(n))
    ensures TreeSum(consts, map[], NestedTree(n)) == RightNested(n)
  {
    NestedFits(consts, n);
    assert ValidSumTail(consts, NoMoreTerms) && NoHolderSumTail(NoMoreTerms);
    assert TreeSumTail(consts, map[], NoMoreTerms) == End;
    if n > 0 {
      var inner := NestedTree(n - 1);
      var tail := NestedTree(n).rest;
      NestedValid(consts, n - 1);
      NestedProduct(consts, inner);
      assert ValidSumTail(consts, tail) && NoHolderSumTail(tail);
      assert TreeSumTail(consts, map[], tail) == Link('+', AstExpression(RightNested(n - 1), End), End);
    }
  }

  lemma NestedProduct(consts: Constants, inner: Sum)
    requires ValidSum(consts, inner) && NoHolderSum(inner)
    ensures var p := OneFactor(Bracket(inner, ""));
            ValidProduct(consts, p) && NoHolderProduct(p) &&
            TreeProduct(consts, map[], p) == AstExpression(TreeSum(consts, map[], inner), End)
  {
    assert ValidProductTail(consts, NoMoreFactors) && NoHolderProductTail(NoMoreFactors);
    assert TreeProductTail(consts, map[], NoMoreFactors) == End;
  }

  lemma {:induction false} NestedPrints(consts: Constants, n: nat)
    ensures PrintSum(NestedTree(n), map[], "") == NestedText(n)
  {
    NestedFits(consts, n);
    if n > 0 {
      NestedPrints(consts, n - 1);
      NestedStep(NestedTree(n - 1), NestedText(n - 1));
    } else {
      assert PrintSumTail(NoMoreTerms, map[], "") == "";
    }
  }

  lemma OnePrints(rest: string)
    ensures PrintProduct(OneFactor(Number("", "1")), map[], rest) == "1" + rest
  {
    assert PrintProductTail(NoMoreFactors, map[], rest) == rest;
  }

  lemma NestedStep(inner: Sum, text: string)
    requires PrintSum(inner, map[], "") == text
    ensures var tail := NextTerm("", '+', OneFactor(Bracket(inner, "")), NoMoreTerms);
            PrintSum(Sum(OneFactor(Number("", "1")), tail), map[], "") == "1+(" + text + ")"
  {
    var group := "(" + text + ")";
    BracketPrints(inner, "", text, "");
    assert group + "" == group;
    BracketTerm(inner, group);
    OnePrints("+" + group);
    OneText(text);
  }

  lemma OneText(text: string)
    ensures "1" + ("+" + ("(" + text + ")")) == "1+(" + text + ")"
  {
  }

  lemma BracketTerm(inner: Sum, text: string)
    requires PrintFactor(Bracket(inner, ""), map[], "") == text
    ensures PrintSumTail(NextTerm("", '+', OneFactor(Bracket(inner, "")), NoMoreTerms), map[], "") == "+" + text
  {
    assert PrintSumTail(NoMoreTerms, map[], "") == "" && PrintProductTail(NoMoreFactors, map[], "") == "";
    assert PrintProduct(OneFactor(Bracket(inner, "")), map[], "") == text;
    assert "" + (['+'] + text) == "+" + text;
  }

  /** The stack has 4096 cells: with more operators nested, it is overrun. */
  lemma StackLaw(lib: MathLib, consts: Constants, n: nat)
    requires PlainNames(consts)
    ensures Result(lib, consts, NestedText(n)) ==
            if n < 4096 then Evaluation.Value((n + 1) as real) else StackOverrun
  {
    PlainIsApart(consts);
    NestedValid(consts, n);
    NestedPrints(consts, n);
    RoundTrip(consts, NestedTree(n), "");
    RightNestedDepth(lib, n);
    ReachedIsDepth(lib, RightNested(n));
    EvaluationComputes(lib, consts, NestedText(n));
  }

  // ----- numerals -----

  /** A text that is a single number. */
  lemma SingleResult(lib: MathLib, consts: Constants, s: string, v: real)
    requires ParseFactor(consts, s) == Match(Fp(v), "")
    ensures Result(lib, consts, s) == Evaluation.Value(v)
  {
    SingleParsed(consts, s, v);
    SingleMeans(lib, v);
    EvaluationComputes(lib, consts, s);
  }

  lemma SingleParsed(consts: Constants, s: string, v: real)
    requires ParseFactor(consts, s) == Match(Fp(v), "")
    ensures Parse(consts, s) == Some(Single(v))
  {
    assert ParseProducts(consts, "") == Match(End, "") && ParseSums(consts, "") == Match(End, "");
    assert ParseTerm(consts, s) == Match(AstExpression(Fp(v), End), "");
    assert ParseExpression(consts, s) == Match(Single(v), "");
  }

  lemma SingleMeans(lib: MathLib, v: real)
    ensures WellFormed(Single(v)) && Eval(lib, Single(v)) == FormulaAst.Ok(v) && Reached(lib, Single(v)) == 1
  {
    NoOperands(lib, Fp(v));
    NoOperands(lib, AstExpression(Fp(v), End));
    assert Reached(lib, AstExpression(Fp(v), End)) == 1;
  }

  lemma NumeralResult(lib: MathLib, consts: Constants, s: string)
    requires IsNumeral(s)
    ensures Result(lib, consts, s) == Evaluation.Value(NumeralValue(consts, s))
  {
    assert Skip(s) == s by { NumeralStarts(s); }
    assert s[..|s|] == s && s[|s|..] == "";
    SingleResult(lib, consts, s, NumeralValue(consts, s));
  }

  lemma NumeralStarts(s: string)
    requires IsNumeral(s)
    ensures !IsSpace(s[0])
  {
    if !IsSign(s[0]) {
      UnsignedStarts(s);
    }
  }

  lemma UnsignedStarts(s: string)
    requires UnsignedLength(s) > 0
    ensures MayStartNumeral(s[0])
  {
    if !MayStartNumeral(s[0]) { NotUnsigned(s); }
  }

  // ----- constants -----

  lemma LettersAreName(name: string)
    requires name != "" && ('a' <= name[0] <= 'z' || 'A' <= name[0] <= 'Z' || name[0] == '_')
    requires forall x :: x in name ==> 'a' <= x <= 'z' || 'A' <= x <= 'Z' || '0' <= x <= '9' || x == '_'
    ensures IsIdentifier(name)
  {
    forall i | 0 <= i < |name| ensures IsNameChar(name[i]) {
      assert name[i] in name;
    }
  }

  /** A name of letters, digits and underscores stands for its constant, unless a function name or
      the numeral inf or nan starts it. */
  lemma ConstantLaw(lib: MathLib, consts: Constants, name: string)
    requires PlainNames(consts) && name in consts.names
    requires name != "" && ('a' <= name[0] <= 'z' || 'A' <= name[0] <= 'Z' || name[0] == '_')
    requires forall x :: x in name ==> 'a' <= x <= 'z' || 'A' <= x <= 'Z' || '0' <= x <= '9' || x == '_'
    requires Unshadowed(name)
    ensures Result(lib, consts, name) == Evaluation.Value(consts.names[name])
  {
    LettersAreName(name);
    ReadAlone(lib, consts, name);
  }

  lemma ReadAlone(lib: MathLib, consts: Constants, name: string)
    requires PlainNames(consts) && name in consts.names && IsIdentifier(name) && Unshadowed(name)
    ensures Result(lib, consts, name) == Evaluation.Value(consts.names[name])
  {
    PlainIsApart(consts);
    ApartIsRead(consts, name);
    assert name + "" == name && Boundary("");
    SingleResult(lib, consts, name, consts.names[name]);
  }

  /** The parser's own constants. */
  lemma BuiltInLaw(lib: MathLib, user: Constants, e: real, pi: real)
    requires PlainNames(user)
    ensures Result(lib, Known(user, e, pi), "e") == Evaluation.Value(e)
    ensures Result(lib, Known(user, e, pi), "pi") == Evaluation.Value(pi)
  {
    BuiltInNames();
    ReadAlone(lib, Known(user, e, pi), "e");
    ReadAlone(lib, Known(user, e, pi), "pi");
    assert "e" != "pi";
  }
}
