/** What a formula with place holders means: pasting numerals into the text and parsing the
    result gives the value of the template with its place holders bound to the numbers. */
module FormulaMeaning {
  import opened FormulaAst
  import opened Decimal
  import opened FormulaGrammar
  import opened FormulaSyntax
  import opened FormulaSubstitution
  import opened Wrappers

  // ----- the syntax tree of the text after pasting -----

  function FillSum(e: Sum, sub: Pasted): Sum { Sum(FillProduct(e.first, sub), FillSumTail(e.rest, sub)) }

  function FillSumTail(e: SumTail, sub: Pasted): SumTail {
    match e
    case NoMoreTerms => NoMoreTerms
    case NextTerm(pad, op, term, tail) => NextTerm(pad, op, FillProduct(term, sub), FillSumTail(tail, sub))
  }

  function FillProduct(e: Product, sub: Pasted): Product {
    Product(FillFactor(e.first, sub), FillProductTail(e.rest, sub))
  }

  function FillProductTail(e: ProductTail, sub: Pasted): ProductTail {
    match e
    case NoMoreFactors => NoMoreFactors
    case NextFactor(pad, op, factor, tail) => NextFactor(pad, op, FillFactor(factor, sub), FillProductTail(tail, sub))
  }

  /** A sign directly in front of a pasted unsigned numeral becomes part of the numeral. */
  function FillFactor(e: Factor, sub: Pasted): Factor {
    match e
    case Group(pad, body, close) => Group(pad, FillSum(body, sub), close)
    case SignOf(pad, sign, factor) =>
      var f := FillFactor(factor, sub);
      if IsBareNumeral(f) then Number(pad, [sign] + f.text) else SignOf(pad, sign, f)
    case Call1(pad, name, open, arg, close) => Call1(pad, name, open, FillSum(arg, sub), close)
    case Call2(pad, name, open, arg1, comma, arg2, close) =>
      Call2(pad, name, open, FillSum(arg1, sub), comma, FillSum(arg2, sub), close)
    case PlaceHolder(pad, key) => if key in sub then Number(pad, sub[key]) else e
    case _ => e
  }

  // ----- it prints to the same text -----

  lemma {:induction false} FillPrintsSum(e: Sum, sub: Pasted, rest: string)
    ensures PrintSum(FillSum(e, sub), map[], rest) == PrintSum(e, sub, rest)
    decreases e
  {
    FillPrintsSumTail(e.rest, sub, rest);
    FillPrintsProduct(e.first, sub, PrintSumTail(e.rest, sub, rest));
  }

  lemma {:induction false} FillPrintsSumTail(e: SumTail, sub: Pasted, rest: string)
    ensures PrintSumTail(FillSumTail(e, sub), map[], rest) == PrintSumTail(e, sub, rest)
    decreases e
  {
    match e
    case NoMoreTerms =>
    case NextTerm(_, _, term, tail) =>
      FillPrintsSumTail(tail, sub, rest);
      FillPrintsProduct(term, sub, PrintSumTail(tail, sub, rest));
  }

  lemma {:induction false} FillPrintsProduct(e: Product, sub: Pasted, rest: string)
    ensures PrintProduct(FillProduct(e, sub), map[], rest) == PrintProduct(e, sub, rest)
    decreases e
  {
    FillPrintsProductTail(e.rest, sub, rest);
    FillPrintsFactor(e.first, sub, PrintProductTail(e.rest, sub, rest));
  }

  lemma {:induction false} FillPrintsProductTail(e: ProductTail, sub: Pasted, rest: string)
    ensures PrintProductTail(FillProductTail(e, sub), map[], rest) == PrintProductTail(e, sub, rest)
    decreases e
  {
    match e
    case NoMoreFactors =>
    case NextFactor(_, _, factor, tail) =>
      FillPrintsProductTail(tail, sub, rest);
      FillPrintsFactor(factor, sub, PrintProductTail(tail, sub, rest));
  }

  lemma {:induction false} FillPrintsFactor(e: Factor, sub: Pasted, rest: string)
    ensures PrintFactor(FillFactor(e, sub), map[], rest) == PrintFactor(e, sub, rest)
    decreases e
  {
    match e
    case Group(_, body, close) => FillPrintsSum(body, sub, close + (")" + rest));
    case SignOf(_, sign, factor) =>
      FillPrintsFactor(factor, sub, rest);
      var f := FillFactor(factor, sub);
      if IsBareNumeral(f) {
        assert "" + (f.text + rest) == f.text + rest;
        assert [sign] + (f.text + rest) == ([sign] + f.text) + rest;
      }
    case Call1(_, _, _, arg, close) => FillPrintsSum(arg, sub, close + (")" + rest));
    case Call2(_, _, _, arg1, comma, arg2, close) =>
      FillPrintsSum(arg2, sub, close + (")" + rest));
      FillPrintsSum(arg1, sub, comma + ("," + PrintSum(arg2, sub, close + (")" + rest))));
    case _ =>
  }

  // ----- it is a text of the language -----

  predicate BoundSum(e: Sum, sub: Pasted) { NoHolderSum(FillSum(e, sub)) }

  lemma NoSignInFront(text: string)
    requires UnsignedLength(text) > 0
    ensures !IsSign(text[0])
  {
    if IsSign(text[0]) {
      NotUnsigned(text);
    }
  }

  lemma SignedNumeral(consts: Constants, sign: char, text: string)
    requires IsSign(sign) && IsNumeral(text) && UnsignedLength(text) > 0
    ensures IsNumeral([sign] + text)
    ensures var v := NumeralValue(consts, text);
            NumeralValue(consts, [sign] + text) == if sign == '-' then -v else v
  {
    NoSignInFront(text);
    assert ([sign] + text)[1..] == text && ([sign] + text)[0] == sign;
  }

  lemma {:induction false} FillValidSum(consts: Constants, e: Sum, sub: Pasted)
    requires ValidSum(consts, e) && ProperTexts(sub)
    ensures ValidSum(consts, FillSum(e, sub))
    decreases e
  {
    FillValidProduct(consts, e.first, sub);
    FillValidSumTail(consts, e.rest, sub);
  }

  lemma {:induction false} FillValidSumTail(consts: Constants, e: SumTail, sub: Pasted)
    requires ValidSumTail(consts, e) && ProperTexts(sub)
    ensures ValidSumTail(consts, FillSumTail(e, sub))
    decreases e
  {
    if e.NextTerm? {
      FillValidProduct(consts, e.term, sub);
      FillValidSumTail(consts, e.tail, sub);
    }
  }

  lemma {:induction false} FillValidProduct(consts: Constants, e: Product, sub: Pasted)
    requires ValidProduct(consts, e) && ProperTexts(sub)
    ensures ValidProduct(consts, FillProduct(e, sub))
    decreases e
  {
    FillValidFactor(consts, e.first, sub);
    FillValidProductTail(consts, e.rest, sub);
  }

  lemma {:induction false} FillValidProductTail(consts: Constants, e: ProductTail, sub: Pasted)
    requires ValidProductTail(consts, e) && ProperTexts(sub)
    ensures ValidProductTail(consts, FillProductTail(e, sub))
    decreases e
  {
    if e.NextFactor? {
      FillValidFactor(consts, e.factor, sub);
      FillValidProductTail(consts, e.tail, sub);
    }
  }

  lemma {:induction false} FillValidFactor(consts: Constants, e: Factor, sub: Pasted)
    requires ValidFactor(consts, e) && ProperTexts(sub)
    ensures ValidFactor(consts, FillFactor(e, sub))
    decreases e
  {
    match e
    case Group(_, body, _) => FillValidSum(consts, body, sub);
    case SignOf(_, sign, factor) =>
      FillValidFactor(consts, factor, sub);
      var f := FillFactor(factor, sub);
      if IsBareNumeral(f) {
        SignedNumeral(consts, sign, f.text);
      }
    case Call1(_, _, _, arg, _) => FillValidSum(consts, arg, sub);
    case Call2(_, _, _, arg1, _, arg2, _) =>
      FillValidSum(consts, arg1, sub);
      FillValidSum(consts, arg2, sub);
    case _ =>
  }

  // ----- it means the same -----

  /** The numbers the pasted texts stand for. */
  function Numbers(consts: Constants, sub: Pasted): Environment { map k | k in sub :: NumeralValue(consts, sub[k]) }

  /** Trees that evaluate alike and reach equally many stack cells. */
  ghost predicate Alike(lib: MathLib, x: Operand, y: Operand) {
    WellFormed(x) && WellFormed(y) && Eval(lib, x) == Eval(lib, y) && Reached(lib, x) == Reached(lib, y)
  }

  ghost predicate AlikeRest(lib: MathLib, x: Operations, y: Operations) {
    WellFormedRest(x) && WellFormedRest(y) && forall acc :: AlikeFrom(lib, acc, x, y)
  }

  ghost predicate AlikeFrom(lib: MathLib, acc: real, x: Operations, y: Operations)
    requires WellFormedRest(x) && WellFormedRest(y)
  {
    EvalRest(lib, acc, x) == EvalRest(lib, acc, y) && ReachedRest(lib, acc, x) == ReachedRest(lib, acc, y)
  }

  lemma AlikeLinks(lib: MathLib, c: char, x: Operand, y: Operand, xs: Operations, ys: Operations)
    requires IsOperator(c) && Alike(lib, x, y) && AlikeRest(lib, xs, ys)
    ensures AlikeRest(lib, Link(c, x, xs), Link(c, y, ys))
  {
    forall acc ensures AlikeFrom(lib, acc, Link(c, x, xs), Link(c, y, ys)) {
      var r := Eval(lib, x);
      if r.Ok? {
        var s := ApplyOperator(c, acc, r.v);
        if s.Ok? { assert AlikeFrom(lib, s.v, xs, ys); }
      }
    }
  }

  lemma AlikeExpressions(lib: MathLib, x: Operand, y: Operand, xs: Operations, ys: Operations)
    requires Alike(lib, x, y) && AlikeRest(lib, xs, ys)
    ensures Alike(lib, AstExpression(x, xs), AstExpression(y, ys))
  {
    var r := Eval(lib, x);
    if r.Ok? { assert AlikeFrom(lib, r.v, xs, ys); }
  }

  lemma {:induction false} FillMeansSum(lib: MathLib, consts: Constants, e: Sum, sub: Pasted)
    requires ValidSum(consts, e) && ProperTexts(sub) && NoHolderSum(FillSum(e, sub))
    ensures Alike(lib, TreeSum(consts, map[], FillSum(e, sub)), TreeSum(consts, Numbers(consts, sub), e))
    decreases e
  {
    FillMeansProduct(lib, consts, e.first, sub);
    FillMeansSumTail(lib, consts, e.rest, sub);
    AlikeExpressions(lib, TreeProduct(consts, map[], FillProduct(e.first, sub)),
                     TreeProduct(consts, Numbers(consts, sub), e.first),
                     TreeSumTail(consts, map[], FillSumTail(e.rest, sub)),
                     TreeSumTail(consts, Numbers(consts, sub), e.rest));
  }

  lemma {:induction false} FillMeansSumTail(lib: MathLib, consts: Constants, e: SumTail, sub: Pasted)
    requires ValidSumTail(consts, e) && ProperTexts(sub) && NoHolderSumTail(FillSumTail(e, sub))
    ensures AlikeRest(lib, TreeSumTail(consts, map[], FillSumTail(e, sub)),
      TreeSumTail(consts, Numbers(consts, sub), e))
    decreases e
  {
    if e.NextTerm? {
      FillMeansProduct(lib, consts, e.term, sub);
      FillMeansSumTail(lib, consts, e.tail, sub);
      AlikeLinks(lib, e.op, TreeProduct(consts, map[], FillProduct(e.term, sub)),
                 TreeProduct(consts, Numbers(consts, sub), e.term),
                 TreeSumTail(consts, map[], FillSumTail(e.tail, sub)),
                 TreeSumTail(consts, Numbers(consts, sub), e.tail));
    }
  }

  lemma {:induction false} FillMeansProduct(lib: MathLib, consts: Constants, e: Product, sub: Pasted)
    requires ValidProduct(consts, e) && ProperTexts(sub) && NoHolderProduct(FillProduct(e, sub))
    ensures Alike(lib, TreeProduct(consts, map[], FillProduct(e, sub)), TreeProduct(consts, Numbers(consts, sub), e))
    decreases e
  {
    FillMeansFactor(lib, consts, e.first, sub);
    FillMeansProductTail(lib, consts, e.rest, sub);
    AlikeExpressions(lib, TreeFactor(consts, map[], FillFactor(e.first, sub)),
                     TreeFactor(consts, Numbers(consts, sub), e.first),
                     TreeProductTail(consts, map[], FillProductTail(e.rest, sub)),
                     TreeProductTail(consts, Numbers(consts, sub), e.rest));
  }

  lemma {:induction false} FillMeansProductTail(lib: MathLib, consts: Constants, e: ProductTail, sub: Pasted)
    requires ValidProductTail(consts, e) && ProperTexts(sub) && NoHolderProductTail(FillProductTail(e, sub))
    ensures AlikeRest(lib, TreeProductTail(consts, map[], FillProductTail(e, sub)),
      TreeProductTail(consts, Numbers(consts, sub), e))
    decreases e
  {
    if e.NextFactor? {
      FillMeansFactor(lib, consts, e.factor, sub);
      FillMeansProductTail(lib, consts, e.tail, sub);
      AlikeLinks(lib, e.op, TreeFactor(consts, map[], FillFactor(e.factor, sub)),
                 TreeFactor(consts, Numbers(consts, sub), e.factor),
                 TreeProductTail(consts, map[], FillProductTail(e.tail, sub)),
                 TreeProductTail(consts, Numbers(consts, sub), e.tail));
    }
  }

  lemma {:induction false} FillMeansFactor(lib: MathLib, consts: Constants, e: Factor, sub: Pasted)
    requires ValidFactor(consts, e) && ProperTexts(sub) && NoHolderFactor(FillFactor(e, sub))
    ensures Alike(lib, TreeFactor(consts, map[], FillFactor(e, sub)), TreeFactor(consts, Numbers(consts, sub), e))
    decreases e
  {
    match e
    case Group(_, body, _) => FillMeansSum(lib, consts, body, sub);
    case SignOf(_, _, factor) =>
      FillMeansFactor(lib, consts, factor, sub);
      FillValidFactor(consts, factor, sub);
      SignMeans(lib, consts, e, sub, FillFactor(factor, sub), TreeFactor(consts, Numbers(consts, sub), factor));
    case Call1(_, name, _, arg, _) =>
      FillMeansSum(lib, consts, arg, sub);
      AlikeCalls(lib, name, TreeSum(consts, map[], FillSum(arg, sub)), TreeSum(consts, Numbers(consts, sub), arg));
    case Call2(_, name, _, arg1, _, arg2, _) =>
      FillMeansSum(lib, consts, arg1, sub);
      FillMeansSum(lib, consts, arg2, sub);
      AlikeCalls2(lib, name, TreeSum(consts, map[], FillSum(arg1, sub)), TreeSum(consts, Numbers(consts, sub), arg1),
                  TreeSum(consts, map[], FillSum(arg2, sub)), TreeSum(consts, Numbers(consts, sub), arg2));
    case _ =>
  }

  lemma AlikeCalls(lib: MathLib, name: string, x: Operand, y: Operand)
    requires name in UNARY_NAMES && Alike(lib, x, y)
    ensures Alike(lib, UnaryFunction(name, x), UnaryFunction(name, y))
  {
  }

  lemma AlikeCalls2(lib: MathLib, name: string, x1: Operand, y1: Operand, x2: Operand, y2: Operand)
    requires name in BINARY_NAMES && Alike(lib, x1, y1) && Alike(lib, x2, y2)
    ensures Alike(lib, BinaryFunction(name, x1, x2), BinaryFunction(name, y1, y2))
  {
  }

  lemma AlikeSigned(lib: MathLib, sign: char, x: Operand, y: Operand)
    requires IsSign(sign) && Alike(lib, x, y)
    ensures Alike(lib, Signed(sign, x), Signed(sign, y))
  {
  }

  lemma AlikeSignedLiteral(lib: MathLib, sign: char, v: real, y: Operand)
    requires IsSign(sign) && Alike(lib, Fp(v), y)
    ensures Alike(lib, Fp(if sign == '-' then -v else v), Signed(sign, y))
  {
  }

  lemma SignedLiteralMeans(lib: MathLib, consts: Constants, sign: char, text: string, y: Operand)
    requires IsSign(sign) && IsNumeral(text) && UnsignedLength(text) > 0
    requires Alike(lib, Fp(NumeralValue(consts, text)), y)
    ensures Alike(lib, Fp(NumeralValue(consts, [sign] + text)), Signed(sign, y))
  {
    SignedNumeral(consts, sign, text);
    AlikeSignedLiteral(lib, sign, NumeralValue(consts, text), y);
  }

  lemma SignMeans(lib: MathLib, consts: Constants, e: Factor, sub: Pasted, f: Factor, y: Operand)
    requires e.SignOf? && IsSign(e.sign) && f == FillFactor(e.factor, sub)
    requires IsBareNumeral(f) ==> IsNumeral(f.text)
    requires Alike(lib, TreeFactor(consts, map[], f), y)
    ensures Alike(lib, TreeFactor(consts, map[], FillFactor(e, sub)), Signed(e.sign, y))
  {
    if IsBareNumeral(f) {
      SignedLiteralMeans(lib, consts, e.sign, f.text, y);
    } else {
      AlikeSigned(lib, e.sign, TreeFactor(consts, map[], f), y);
    }
  }

  // ----- unbound place holders -----

  lemma {:induction false} NamesOnly(names: seq<string>, s: string)
    requires s != "" && forall f :: f in names ==> f != "" && f[0] != s[0]
    ensures FirstPrefix(names, s) == None
  {
    if names != [] {
      assert forall f :: f in names[1..] ==> f in names;
      NamesOnly(names[1..], s);
    }
  }

  /** Constants that are told apart from each other and from place holders. */
  ghost predicate TemplateNames(consts: Constants) {
    ApartNames(consts) && forall name :: name in consts.names ==> name == "" || name[0] != '{'
  }

  /** Plain names are told apart. */
  lemma PlainIsTemplate(consts: Constants)
    requires PlainNames(consts)
    ensures TemplateNames(consts)
  {
    PlainIsApart(consts);
    forall name | name in consts.names ensures name == "" || name[0] != '{' {
      if name != "" && name[0] == '{' {
        NoPlainName(name);
      }
    }
  }

  /** Two braces are no factor. */
  lemma HolderIsNoFactor(consts: Constants, pad: string, key: string, rest: string)
    requires TemplateNames(consts) && AllSpace(pad)
    ensures !ParseFactor(consts, pad + (HolderText(key) + rest)).Match?
  {
    var t := HolderText(key) + rest;
    assert t[0] == '{';
    ReadsBrace(consts, pad, t);
    BraceIsNoName(consts, t);
  }

  lemma ReadsBrace(consts: Constants, pad: string, t: string)
    requires AllSpace(pad) && t != "" && t[0] == '{'
    ensures ParseFactor(consts, pad + t) == ParseName(consts, t)
  {
    SkipTo(pad, t);
    NotUnsigned(t);
  }

  lemma BraceIsNoName(consts: Constants, t: string)
    requires TemplateNames(consts) && t != "" && t[0] == '{'
    ensures ParseName(consts, t) == NoMatch
  {
    NoFunctionAtBrace(t);
    NoConstantAtBrace(consts, t);
  }

  lemma NoFunctionAtBrace(t: string)
    requires t != "" && t[0] == '{'
    ensures FirstPrefix(UNARY_NAMES, t) == None && FirstPrefix(BINARY_NAMES, t) == None
  {
    NamesAreNames();
    NamesOnly(UNARY_NAMES, t);
    NamesOnly(BINARY_NAMES, t);
  }

  lemma NoConstantAtBrace(consts: Constants, t: string)
    requires TemplateNames(consts) && t != "" && t[0] == '{'
    ensures forall k :: 0 < k <= |t| ==> t[..k] !in consts.names
  {
    forall k | 0 < k <= |t| ensures t[..k] !in consts.names {
      assert t[..k][0] == '{';
    }
  }

  lemma NoPlainName(name: string)
    requires name != "" && name[0] == '{'
    ensures !IsIdentifier(name) && !NeverRead(name)
  {
    NotUnsigned(name);
    NamesAreNames();
  }

  lemma {:induction false} FailsSum(consts: Constants, e: Sum, rest: string)
    requires TemplateNames(consts) && ValidSum(consts, e) && !NoHolderSum(e) && EndsSum(rest)
    ensures !ParseExpression(consts, PrintSum(e, map[], rest)).Match?
    decreases e, 1
  {
    var after := PrintSumTail(e.rest, map[], rest);
    TailEndsProduct(e.rest, consts, rest);
    if NoHolderProduct(e.first) {
      ParsesProduct(consts, e.first, after);
      FailsSumTail(consts, e.rest, rest);
    } else {
      FailsProduct(consts, e.first, after);
    }
  }

  lemma {:induction false} FailsSumTail(consts: Constants, e: SumTail, rest: string)
    requires TemplateNames(consts) && ValidSumTail(consts, e) && !NoHolderSumTail(e) && EndsSum(rest)
    ensures !ParseSums(consts, PrintSumTail(e, map[], rest)).Match?
    decreases e, 1
  {
    var after := PrintSumTail(e.tail, map[], rest);
    var text := PrintProduct(e.term, map[], after);
    SkipTo(e.pad, [e.op] + text);
    assert ([e.op] + text)[1..] == text;
    TailEndsProduct(e.tail, consts, rest);
    if NoHolderProduct(e.term) {
      ParsesProduct(consts, e.term, after);
      FailsSumTail(consts, e.tail, rest);
    } else {
      FailsProduct(consts, e.term, after);
    }
  }

  lemma {:induction false} FailsProduct(consts: Constants, e: Product, rest: string)
    requires TemplateNames(consts) && ValidProduct(consts, e) && !NoHolderProduct(e) && EndsProduct(rest)
    ensures !ParseTerm(consts, PrintProduct(e, map[], rest)).Match?
    decreases e, 1
  {
    var after := PrintProductTail(e.rest, map[], rest);
    if NoHolderFactor(e.first) {
      ParsesFactor(consts, e.first, after);
      FailsProductTail(consts, e.rest, rest);
    } else {
      FailsFactor(consts, e.first, after);
    }
  }

  lemma {:induction false} FailsProductTail(consts: Constants, e: ProductTail, rest: string)
    requires TemplateNames(consts) && ValidProductTail(consts, e) && !NoHolderProductTail(e) && EndsProduct(rest)
    ensures !ParseProducts(consts, PrintProductTail(e, map[], rest)).Match?
    decreases e, 1
  {
    var after := PrintProductTail(e.tail, map[], rest);
    var text := PrintFactor(e.factor, map[], after);
    SkipTo(e.pad, [e.op] + text);
    assert ([e.op] + text)[1..] == text;
    if NoHolderFactor(e.factor) {
      ParsesFactor(consts, e.factor, after);
      FailsProductTail(consts, e.tail, rest);
    } else {
      FailsFactor(consts, e.factor, after);
    }
  }

  lemma {:induction false} FailsFactor(consts: Constants, e: Factor, rest: string)
    requires TemplateNames(consts) && ValidFactor(consts, e) && !NoHolderFactor(e) && Boundary(rest)
    ensures !ParseFactor(consts, PrintFactor(e, map[], rest)).Match?
    decreases e, 1
  {
    match e
    case PlaceHolder(pad, key) => HolderIsNoFactor(consts, pad, key, rest);
    case Group(pad, body, close) =>
      FailsGroup(consts, body, close, rest);
      ReadsGroup(consts, pad, PrintSum(body, map[], close + (")" + rest)));
    case SignOf(pad, sign, factor) =>
      FailsFactor(consts, factor, rest);
      NoBareNumeral(consts, factor, rest);
      ReadsSign(consts, pad, sign, PrintFactor(factor, map[], rest));
    case Call1(pad, name, open, arg, close) =>
      FailsGroup(consts, arg, close, rest);
      ReadsUnaryCall(consts, pad, name, open, PrintSum(arg, map[], close + (")" + rest)));
    case Call2(pad, name, open, arg1, comma, arg2, close) =>
      var second := PrintSum(arg2, map[], close + (")" + rest));
      ClosingToken(comma, ",", second);
      ReadsBinaryCall(consts, pad, name, open, PrintSum(arg1, map[], comma + ("," + second)));
      if NoHolderSum(arg1) {
        ParsesSum(consts, arg1, comma + ("," + second));
        FailsGroup(consts, arg2, close, rest);
      } else {
        FailsSum(consts, arg1, comma + ("," + second));
      }
  }

  lemma {:induction false} FailsGroup(consts: Constants, e: Sum, close: string, rest: string)
    requires TemplateNames(consts) && ValidSum(consts, e) && !NoHolderSum(e) && AllSpace(close)
    ensures !ParseGroup(consts, PrintSum(e, map[], close + (")" + rest))).Match?
    decreases e, 2
  {
    ClosingToken(close, ")", rest);
    FailsSum(consts, e, close + (")" + rest));
  }

  // ----- the main theorems -----

  lemma {:induction false} FirstWinsProper(sub: Pasted, bindings: seq<Binding>)
    requires ProperTexts(sub) && ProperBindings(bindings)
    ensures ProperTexts(FirstWins(sub, bindings))
    decreases |bindings|
  {
    if bindings != [] {
      FirstWinsProper(PasteOne(sub, bindings[0].name, bindings[0].text), bindings[1..]);
    }
  }

  /** Pasting numerals into a template, negative ones too, and parsing the result succeeds
      exactly when every place holder is bound, and then means what the template means with
      its place holders standing for the numbers. */
  lemma SubstitutionMeaning(lib: MathLib, consts: Constants, e: Sum, trailing: string, bindings: seq<Binding>)
    requires TemplateNames(consts) && ValidSum(consts, e) && PlainSum(e) && AllSpace(trailing)
    requires ProperBindings(bindings)
    ensures var sub := FirstWins(map[], bindings);
            var parsed := Parse(consts, PasteAll(PrintSum(e, map[], trailing), bindings));
            (parsed.Some? <==> BoundSum(e, sub)) &&
            (parsed.Some? ==> Alike(lib, parsed.value, TreeSum(consts, Numbers(consts, sub), e)))
  {
    var sub := FirstWins(map[], bindings);
    var filled := FillSum(e, sub);
    FirstWinsProper(map[], bindings);
    PasteAllPrints(consts, e, map[], trailing, bindings);
    FillPrintsSum(e, sub, trailing);
    FillValidSum(consts, e, sub);
    if BoundSum(e, sub) {
      RoundTrip(consts, filled, trailing);
      FillMeansSum(lib, consts, e, sub);
    } else {
      SkipTo(trailing, "");
      assert trailing + "" == trailing;
      FailsSum(consts, filled, trailing);
    }
  }

  /** Where a name is bound more than once, it is bound to the same text. */
  ghost predicate Agreeing(bindings: seq<Binding>) {
    forall a, b :: a in bindings && b in bindings && a.name == b.name ==> a.text == b.text
  }

  lemma {:induction false} FirstWinsFinds(sub: Pasted, bindings: seq<Binding>, k: string)
    ensures var m := FirstWins(sub, bindings);
            if k in sub then k in m && m[k] == sub[k]
            else (k in m <==> exists i :: 0 <= i < |bindings| && bindings[i].name == k) &&
                 (k in m ==> Binding(k, m[k]) in bindings)
    decreases |bindings|
  {
    if bindings != [] {
      var b := bindings[0];
      FirstWinsFinds(PasteOne(sub, b.name, b.text), bindings[1..], k);
      assert forall i :: 0 <= i < |bindings| - 1 ==> bindings[1..][i] == bindings[i + 1];
    }
  }

  /** Bindings that agree may be replaced in any order. */
  lemma OrderDoesNotMatter(first: seq<Binding>, second: seq<Binding>)
    requires Agreeing(first) && forall b :: b in first <==> b in second
    ensures FirstWins(map[], first) == FirstWins(map[], second)
  {
    var m, n := FirstWins(map[], first), FirstWins(map[], second);
    forall k: string
      ensures (k in m <==> k in n) && (k in m && k in n ==> m[k] == n[k])
    {
      FirstWinsFinds(map[], first, k);
      FirstWinsFinds(map[], second, k);
      if k in m {
        assert Binding(k, m[k]) in second;
      }
      if k in n {
        assert Binding(k, n[k]) in first;
      }
    }
  }
}
