/** Formula texts as trees, with any white space between tokens and with place holders.
    Printing such a tree and parsing the text gives back the tree the grammar means. */
module FormulaSyntax {
  import opened FormulaAst
  import opened Decimal
  import opened FormulaGrammar
  import opened Wrappers

  datatype Sum = Sum(first: Product, rest: SumTail)
  datatype SumTail = NoMoreTerms | NextTerm(pad: string, op: char, term: Product, tail: SumTail)
  datatype Product = Product(first: Factor, rest: ProductTail)
  datatype ProductTail = NoMoreFactors | NextFactor(pad: string, op: char, factor: Factor, tail: ProductTail)

  /** `pad` stands for the white space in front of the first token; the other strings are the
      white space in front of the later tokens. */
  datatype Factor =
    | Number(pad: string, text: string)
    | Group(pad: string, body: Sum, close: string)
    | SignOf(pad: string, sign: char, factor: Factor)
    | Call1(pad: string, name: string, open: string, arg: Sum, close: string)
    | Call2(pad: string, name: string, open: string, arg1: Sum, comma: string, arg2: Sum, close: string)
    | Constant(pad: string, name: string)
    | PlaceHolder(pad: string, key: string)

  // ----- printing -----

  /** Texts already pasted in for place holders. */
  type Pasted = map<string, string>

  function HolderText(key: string): string { "{{" + key + "}}" }

  /** Each printer puts the text of its tree in front of `rest`. */
  function PrintSum(e: Sum, sub: Pasted, rest: string): string {
    PrintProduct(e.first, sub, PrintSumTail(e.rest, sub, rest))
  }

  function PrintSumTail(e: SumTail, sub: Pasted, rest: string): string {
    match e
    case NoMoreTerms => rest
    case NextTerm(pad, op, term, tail) => pad + ([op] + PrintProduct(term, sub, PrintSumTail(tail, sub, rest)))
  }

  function PrintProduct(e: Product, sub: Pasted, rest: string): string {
    PrintFactor(e.first, sub, PrintProductTail(e.rest, sub, rest))
  }

  function PrintProductTail(e: ProductTail, sub: Pasted, rest: string): string {
    match e
    case NoMoreFactors => rest
    case NextFactor(pad, op, factor, tail) => pad + ([op] + PrintFactor(factor, sub, PrintProductTail(tail, sub, rest)))
  }

  function PrintFactor(e: Factor, sub: Pasted, rest: string): string {
    e.pad +
    match e
    case Number(_, text) => text + rest
    case Group(_, body, close) => "(" + PrintSum(body, sub, close + (")" + rest))
    case SignOf(_, sign, factor) => [sign] + PrintFactor(factor, sub, rest)
    case Call1(_, name, open, arg, close) => name + (open + ("(" + PrintSum(arg, sub, close + (")" + rest))))
    case Call2(_, name, open, arg1, comma, arg2, close) =>
      name + (open + ("(" + PrintSum(arg1, sub, comma + ("," + PrintSum(arg2, sub, close + (")" + rest))))))
    case Constant(_, name) => name + rest
    case PlaceHolder(_, key) => (if key in sub then sub[key] else HolderText(key)) + rest
  }

  // ----- the tree a text stands for -----

  type Environment = map<string, real>

  function TreeSum(consts: Constants, env: Environment, e: Sum): Operand {
    AstExpression(TreeProduct(consts, env, e.first), TreeSumTail(consts, env, e.rest))
  }

  function TreeSumTail(consts: Constants, env: Environment, e: SumTail): Operations {
    match e
    case NoMoreTerms => End
    case NextTerm(_, op, term, tail) => Link(op, TreeProduct(consts, env, term), TreeSumTail(consts, env, tail))
  }

  function TreeProduct(consts: Constants, env: Environment, e: Product): Operand {
    AstExpression(TreeFactor(consts, env, e.first), TreeProductTail(consts, env, e.rest))
  }

  function TreeProductTail(consts: Constants, env: Environment, e: ProductTail): Operations {
    match e
    case NoMoreFactors => End
    case NextFactor(_, op, factor, tail) =>
      Link(op, TreeFactor(consts, env, factor), TreeProductTail(consts, env, tail))
  }

  /** Constants and place holders become literals, as in the grammar. */
  function TreeFactor(consts: Constants, env: Environment, e: Factor): Operand {
    match e
    case Number(_, text) => Fp(NumeralValue(consts, text))
    case Group(_, body, _) => TreeSum(consts, env, body)
    case SignOf(_, sign, factor) => Signed(sign, TreeFactor(consts, env, factor))
    case Call1(_, name, _, arg, _) => UnaryFunction(name, TreeSum(consts, env, arg))
    case Call2(_, name, _, arg1, _, arg2, _) =>
      BinaryFunction(name, TreeSum(consts, env, arg1), TreeSum(consts, env, arg2))
    case Constant(_, name) => if name in consts.names then Fp(consts.names[name]) else Nil
    case PlaceHolder(_, key) => if key in env then Fp(env[key]) else Nil
  }

  // ----- which trees are texts of the language -----

  /** The characters with a meaning of their own. */
  predicate IsDelimiter(c: char) {
    c == '+' || c == '-' || c == '*' || c == '/' || c == '(' || c == ')' || c == ',' || c == '{' || c == '}'
  }

  predicate IsNameChar(c: char) { !IsSpace(c) && !IsDelimiter(c) }

  predicate IsNameStart(c: char) { IsNameChar(c) && !IsDigit(c) && c != '.' }

  ghost predicate IsIdentifier(s: string) {
    s != "" && IsNameStart(s[0]) && forall i :: 0 <= i < |s| ==> IsNameChar(s[i])
  }

  /** No function name is a prefix of `name`, and neither is inf or nan in any case; else the
      grammar would commit to the function or read a numeral. */
  ghost predicate Unshadowed(name: string) {
    (forall f :: f in UNARY_NAMES || f in BINARY_NAMES ==> !(f <= name)) && !StartsNan(name) && !StartsInf(name)
  }

  /** A numeral in front of which a sign is read as part of it. */
  predicate IsBareNumeral(e: Factor) { e.Number? && e.pad == "" && UnsignedLength(e.text) > 0 }

  ghost predicate ValidSum(consts: Constants, e: Sum) { ValidProduct(consts, e.first) && ValidSumTail(consts, e.rest) }

  ghost predicate ValidSumTail(consts: Constants, e: SumTail) {
    match e
    case NoMoreTerms => true
    case NextTerm(pad, op, term, tail) =>
      AllSpace(pad) && IsSign(op) && ValidProduct(consts, term) && ValidSumTail(consts, tail)
  }

  ghost predicate ValidProduct(consts: Constants, e: Product) {
    ValidFactor(consts, e.first) && ValidProductTail(consts, e.rest)
  }

  ghost predicate ValidProductTail(consts: Constants, e: ProductTail) {
    match e
    case NoMoreFactors => true
    case NextFactor(pad, op, factor, tail) =>
      AllSpace(pad) && (op == '*' || op == '/') && ValidFactor(consts, factor) && ValidProductTail(consts, tail)
  }

  ghost predicate ValidFactor(consts: Constants, e: Factor) {
    AllSpace(e.pad) &&
    match e
    case Number(_, text) => IsNumeral(text)
    case Group(_, body, close) => AllSpace(close) && ValidSum(consts, body)
    case SignOf(_, sign, factor) =>
      IsSign(sign) && ValidFactor(consts, factor) && !IsBareNumeral(factor)
    case Call1(_, name, open, arg, close) =>
      name in UNARY_NAMES && AllSpace(open) && AllSpace(close) && ValidSum(consts, arg)
    case Call2(_, name, open, arg1, comma, arg2, close) =>
      name in BINARY_NAMES && AllSpace(open) && AllSpace(comma) && AllSpace(close) &&
      ValidSum(consts, arg1) && ValidSum(consts, arg2)
    case Constant(_, name) => name in consts.names && IsIdentifier(name) && Unshadowed(name)
    case PlaceHolder(_, key) => '{' !in key && '}' !in key
  }

  predicate NoHolderSum(e: Sum) { NoHolderProduct(e.first) && NoHolderSumTail(e.rest) }

  predicate NoHolderSumTail(e: SumTail) {
    e.NextTerm? ==> NoHolderProduct(e.term) && NoHolderSumTail(e.tail)
  }

  predicate NoHolderProduct(e: Product) { NoHolderFactor(e.first) && NoHolderProductTail(e.rest) }

  predicate NoHolderProductTail(e: ProductTail) {
    e.NextFactor? ==> NoHolderFactor(e.factor) && NoHolderProductTail(e.tail)
  }

  predicate NoHolderFactor(e: Factor) {
    match e
    case Group(_, body, _) => NoHolderSum(body)
    case SignOf(_, _, factor) => NoHolderFactor(factor)
    case Call1(_, _, _, arg, _) => NoHolderSum(arg)
    case Call2(_, _, _, arg1, _, arg2, _) => NoHolderSum(arg1) && NoHolderSum(arg2)
    case PlaceHolder(_, _) => false
    case _ => true
  }

  /** Where such a name stands, white space, a group, a sign, a numeral or a function is read. */
  ghost predicate NeverRead(name: string) {
    name == "" || IsSpace(name[0]) || name[0] == '(' || IsSign(name[0]) || UnsignedLength(name) > 0 ||
    exists f :: (f in UNARY_NAMES || f in BINARY_NAMES) && f <= name
  }

  /** Apart from those that are never read, no constant name holds white space or a character with
      a meaning of its own. */
  ghost predicate PlainNames(consts: Constants) {
    forall name :: name in consts.names ==> IsIdentifier(name) || NeverRead(name)
  }

  /** No constant name goes on like a formula behind another one that is read. */
  ghost predicate ApartNames(consts: Constants) {
    forall name, longer :: name in consts.names && longer in consts.names ==> Apart(name, longer)
  }

  ghost predicate Apart(name: string, longer: string) {
    IsIdentifier(name) && Unshadowed(name) && name < longer ==> !Boundary(longer[|name|..])
  }

  // ----- where one token ends -----

  /** `rest` cannot prolong a numeral or a name. */
  predicate Boundary(rest: string) {
    rest == "" || IsSpace(rest[0]) || IsSign(rest[0]) ||
    rest[0] == '*' || rest[0] == '/' || rest[0] == ')' || rest[0] == ','
  }

  predicate EndsProduct(rest: string) {
    Boundary(rest) && var t := Skip(rest); t == "" || (t[0] != '*' && t[0] != '/' && t[0] != '(')
  }

  predicate EndsSum(rest: string) {
    EndsProduct(rest) && var t := Skip(rest); t == "" || !IsSign(t[0])
  }

  /** A digit, a point, or the first letter of inf or nan. */
  predicate MayStartNumeral(c: char) {
    IsDigit(c) || c == '.' || c == 'n' || c == 'N' || c == 'i' || c == 'I'
  }

  lemma BoundaryStops(b: string)
    requires Boundary(b)
    ensures b == "" || !MayStartNumeral(b[0])
  {
  }

  lemma ExponentAppend(a: string, b: string)
    requires Boundary(b) && ExponentLength(a) == |a|
    ensures ExponentLength(a + b) == |a|
  {
    if a == "" {
      assert a + b == b;
    } else {
      var sign := if |a| > 1 && IsSign(a[1]) then 1 else 0;
      assert (a + b)[1 + sign..] == a[1 + sign..] + b;
      DigitsLengthAppend(a[1 + sign..], b);
    }
  }

  lemma MantissaAppend(a: string, b: string)
    requires b == "" || (!IsDigit(b[0]) && b[0] != '.')
    ensures MantissaLength(a + b) == MantissaLength(a)
  {
    DigitsLengthAppend(a, b);
    var w := DigitsLength(a);
    if w < |a| && a[w] == '.' {
      assert (a + b)[w + 1..] == a[w + 1..] + b;
      DigitsLengthAppend(a[w + 1..], b);
    }
  }

  lemma {:induction false} CloseAppend(a: string, b: string)
    requires CloseLength(a) > 0
    ensures CloseLength(a + b) == CloseLength(a)
  {
    assert (a + b)[1..] == a[1..] + b;
    if a[0] != ')' {
      CloseAppend(a[1..], b);
    }
  }

  lemma SpecialAppend(a: string, b: string)
    requires Boundary(b) && a != "" && SpecialLength(a) == |a|
    ensures SpecialLength(a + b) == |a|
  {
    if |a| > 4 && StartsNan(a) {
      assert (a + b)[4..] == a[4..] + b;
      CloseAppend(a[4..], b);
    }
  }

  lemma UnsignedAppend(a: string, b: string)
    requires Boundary(b) && UnsignedLength(a) == |a|
    ensures UnsignedLength(a + b) == |a|
  {
    var m := MantissaLength(a);
    BoundaryStops(b);
    MantissaAppend(a, b);
    if m > 0 {
      assert (a + b)[m..] == a[m..] + b;
      ExponentAppend(a[m..], b);
    } else if a == "" {
      assert a + b == b;
      NotUnsigned(b);
    } else {
      SpecialAppend(a, b);
    }
  }

  /** A numeral is read to its end, whatever token or space follows. */
  lemma NumeralAppend(a: string, b: string)
    requires Boundary(b) && IsNumeral(a)
    ensures NumeralLength(a + b) == |a|
  {
    if IsSign(a[0]) {
      assert (a + b)[1..] == a[1..] + b;
      UnsignedAppend(a[1..], b);
    } else {
      UnsignedAppend(a, b);
    }
  }

  lemma NotUnsigned(t: string)
    requires t == "" || !MayStartNumeral(t[0])
    ensures UnsignedLength(t) == 0
  {
  }

  /** Nor is a name that does not start like one the beginning of a numeral. */
  lemma NameIsNoNumeral(name: string, rest: string)
    requires IsIdentifier(name) && !StartsNan(name) && !StartsInf(name) && Boundary(rest)
    ensures UnsignedLength(name + rest) == 0
  {
    var t := name + rest;
    assert |name| < |t| ==> t[|name|] == rest[0];
    assert forall i :: 0 <= i < |name| ==> t[i] == name[i];
  }

  // ----- ordered choice of names -----

  /** No function name is tried after one of its own prefixes. */
  ghost predicate PrefixOrdered(names: seq<string>) {
    forall i, j :: 0 <= i < j < |names| ==> !(names[i] <= names[j])
  }

  ghost predicate NameChars(names: seq<string>) {
    forall i, k :: 0 <= i < |names| && 0 <= k < |names[i]| ==> IsNameChar(names[i][k])
  }

  /** The order in which the grammar lists the names: "cosh" before "cos", "log10" before
      "log", "sinh" before "sin", "tanh" before "tan". */
  lemma NamesPrefixOrdered()
    ensures PrefixOrdered(UNARY_NAMES) && PrefixOrdered(BINARY_NAMES)
  {
    forall i, j | 0 <= i < j < |UNARY_NAMES|
      ensures !(UNARY_NAMES[i] <= UNARY_NAMES[j])
    {
      var a, b := UNARY_NAMES[i], UNARY_NAMES[j];
      assert |a| > |b| || a[0] != b[0] || a[1] != b[1] || a[2] != b[2];
    }
    forall i, j | 0 <= i < j < |BINARY_NAMES|
      ensures !(BINARY_NAMES[i] <= BINARY_NAMES[j])
    {
      var a, b := BINARY_NAMES[i], BINARY_NAMES[j];
      assert a[0] != b[0] || a[1] != b[1];
    }
  }

  lemma NamesAreNames()
    ensures NameChars(UNARY_NAMES) && NameChars(BINARY_NAMES)
    ensures forall f :: f in UNARY_NAMES || f in BINARY_NAMES ==> f != "" && IsLetter(f[0]) && !MayStartNumeral(f[0])
  {
    LettersOrDigits();
  }

  lemma LettersOrDigits()
    ensures forall i, k :: 0 <= i < |UNARY_NAMES| && 0 <= k < |UNARY_NAMES[i]| ==>
              IsLetter(UNARY_NAMES[i][k]) || IsDigit(UNARY_NAMES[i][k])
    ensures forall i, k :: 0 <= i < |BINARY_NAMES| && 0 <= k < |BINARY_NAMES[i]| ==>
              IsLetter(BINARY_NAMES[i][k]) || IsDigit(BINARY_NAMES[i][k])
  {
  }

  lemma NoUnaryBeforeBinary(g: string)
    requires g in BINARY_NAMES
    ensures forall f :: f in UNARY_NAMES ==> !(f <= g)
  {
    forall f | f in UNARY_NAMES
      ensures !(f <= g)
    {
      assert |f| > |g| || f[0] != g[0] || f[1] != g[1] || f[2] != g[2];
    }
  }

  lemma PrefixWithinName(f: string, name: string, tail: string)
    requires forall k :: 0 <= k < |f| ==> IsNameChar(f[k])
    requires tail == "" || !IsNameChar(tail[0])
    requires f <= name + tail
    ensures f <= name
  {
    assert f == (name + tail)[..|f|];
    assert forall k :: 0 <= k < |f| ==> f[k] == (name + tail)[k];
    assert tail != "" ==> (name + tail)[|name|] == tail[0];
    assert |f| <= |name|;
    assert f == name[..|f|];
  }

  lemma {:induction false} FirstPrefixFinds(names: seq<string>, i: nat, tail: string)
    requires PrefixOrdered(names) && NameChars(names) && i < |names|
    requires tail == "" || !IsNameChar(tail[0])
    ensures FirstPrefix(names, names[i] + tail) == Some(names[i])
  {
    if i > 0 {
      if names[0] <= names[i] + tail {
        PrefixWithinName(names[0], names[i], tail);
      }
      FirstPrefixFinds(names[1..], i - 1, tail);
    }
  }

  lemma {:induction false} FirstPrefixNone(names: seq<string>, name: string, tail: string)
    requires NameChars(names) && forall f :: f in names ==> !(f <= name)
    requires tail == "" || !IsNameChar(tail[0])
    ensures FirstPrefix(names, name + tail) == None
  {
    if names != [] {
      if names[0] <= name + tail {
        PrefixWithinName(names[0], name, tail);
      }
      assert forall f :: f in names[1..] ==> f in names;
      FirstPrefixNone(names[1..], name, tail);
    }
  }

  lemma LongestConstantFinds(consts: Constants, name: string, tail: string)
    requires ApartNames(consts) && name in consts.names && IsIdentifier(name) && Unshadowed(name) && Boundary(tail)
    ensures var s := name + tail; LongestConstant(consts, s, |s|) == |name|
  {
    var s := name + tail;
    var k := LongestConstant(consts, s, |s|);
    assert s[..|name|] == name;
    if k > |name| {
      LongerGoesOn(name, tail, k);
    }
  }

  lemma LongerGoesOn(name: string, tail: string, k: nat)
    requires IsIdentifier(name) && Unshadowed(name) && Boundary(tail) && |name| < k <= |name + tail|
    ensures !Apart(name, (name + tail)[..k])
  {
    var longer := (name + tail)[..k];
    assert longer == name + tail[..k - |name|] && longer[|name|..] == tail[..k - |name|];
  }

  lemma PlainIsApart(consts: Constants)
    requires PlainNames(consts)
    ensures ApartNames(consts)
  {
    forall name, longer | name in consts.names && longer in consts.names ensures Apart(name, longer) {
      if IsIdentifier(name) && Unshadowed(name) && name < longer && Boundary(longer[|name|..]) {
        assert longer == name + longer[|name|..];
        LongerIsRead(name, longer[|name|..]);
      }
    }
  }

  /** A longer text would not be overlooked, but is no plain name. */
  lemma LongerIsRead(name: string, tail: string)
    requires IsIdentifier(name) && Unshadowed(name) && tail != "" && Boundary(tail)
    ensures !IsIdentifier(name + tail) && !NeverRead(name + tail)
  {
    var s := name + tail;
    assert s[|name|] == tail[0] && s[0] == name[0];
    NameIsNoNumeral(name, tail);
    NamesAreNames();
    forall f | (f in UNARY_NAMES || f in BINARY_NAMES) && f <= s ensures false {
      LetterwiseName(f);
      PrefixWithinName(f, name, tail);
    }
  }

  lemma LetterwiseName(f: string)
    requires NameChars(UNARY_NAMES) && NameChars(BINARY_NAMES) && (f in UNARY_NAMES || f in BINARY_NAMES)
    ensures forall k :: 0 <= k < |f| ==> IsNameChar(f[k])
  {
    var names := if f in UNARY_NAMES then UNARY_NAMES else BINARY_NAMES;
    var i :| 0 <= i < |names| && names[i] == f;
  }

  // ----- parsing what was printed -----

  lemma SkipTo(pad: string, s: string)
    requires AllSpace(pad) && (s == "" || !IsSpace(s[0]))
    ensures Skip(pad + s) == s
  {
    SkipPad(pad, s);
  }

  lemma ClosingToken(pad: string, c: string, rest: string)
    requires AllSpace(pad) && (c == ")" || c == ",")
    ensures EndsSum(pad + (c + rest)) && Expect(c[0], pad + (c + rest)) == Some(rest)
  {
    SkipTo(pad, c + rest);
  }

  lemma OpeningToken(pad: string, rest: string)
    requires AllSpace(pad)
    ensures Expect('(', pad + ("(" + rest)) == Some(rest)
    ensures var s := pad + ("(" + rest); s != "" && !IsNameChar(s[0])
  {
    SkipTo(pad, "(" + rest);
  }

  lemma TailEndsProduct(e: SumTail, consts: Constants, rest: string)
    requires ValidSumTail(consts, e) && EndsSum(rest)
    ensures EndsProduct(PrintSumTail(e, map[], rest))
  {
    if e.NextTerm? {
      SkipTo(e.pad, [e.op] + PrintProduct(e.term, map[], PrintSumTail(e.tail, map[], rest)));
    }
  }

  lemma NoBareNumeral(consts: Constants, e: Factor, rest: string)
    requires ValidFactor(consts, e) && !IsBareNumeral(e) && Boundary(rest)
    ensures UnsignedLength(PrintFactor(e, map[], rest)) == 0
  {
    var t := PrintFactor(e, map[], rest);
    if e.pad == "" && e.Constant? {
      assert t == e.name + rest;
      NameIsNoNumeral(e.name, rest);
    } else if e.pad == "" && (e.Call1? || e.Call2?) {
      CallStarts(consts, e, rest);
      NotUnsigned(t);
    } else {
      if e.pad != "" {
        assert t[0] == e.pad[0];
      } else {
        OtherStarts(consts, e, rest);
      }
      NotUnsigned(t);
    }
  }

  lemma CallStarts(consts: Constants, e: Factor, rest: string)
    requires ValidFactor(consts, e) && e.pad == "" && (e.Call1? || e.Call2?)
    ensures var t := PrintFactor(e, map[], rest); t != "" && !MayStartNumeral(t[0])
  {
    NamesAreNames();
    assert PrintFactor(e, map[], rest)[0] == e.name[0];
  }

  lemma OtherStarts(consts: Constants, e: Factor, rest: string)
    requires ValidFactor(consts, e) && !IsBareNumeral(e) && e.pad == ""
    requires !e.Constant? && !e.Call1? && !e.Call2?
    ensures var t := PrintFactor(e, map[], rest); t != "" && !MayStartNumeral(t[0])
  {
    var t := PrintFactor(e, map[], rest);
    match e
    case Number(_, text) =>
      assert t[0] == text[0];
      SignInFront(text);
    case Group(_, _, _) => assert t[0] == '(';
    case SignOf(_, sign, _) => assert t[0] == sign;
    case PlaceHolder(_, key) => assert t[0] == '{';
    case _ =>
  }

  /** A numeral that does not start as one has a sign in front. */
  lemma SignInFront(text: string)
    requires IsNumeral(text) && UnsignedLength(text) == 0
    ensures IsSign(text[0])
  {
  }

  lemma {:induction false} ParsesSum(consts: Constants, e: Sum, rest: string)
    requires ApartNames(consts) && ValidSum(consts, e) && NoHolderSum(e) && EndsSum(rest)
    ensures ParseExpression(consts, PrintSum(e, map[], rest)) == Match(TreeSum(consts, map[], e), rest)
    decreases e, 1
  {
    TailEndsProduct(e.rest, consts, rest);
    ParsesProduct(consts, e.first, PrintSumTail(e.rest, map[], rest));
    ParsesSumTail(consts, e.rest, rest);
  }

  lemma {:induction false} ParsesSumTail(consts: Constants, e: SumTail, rest: string)
    requires ApartNames(consts) && ValidSumTail(consts, e) && NoHolderSumTail(e) && EndsSum(rest)
    ensures ParseSums(consts, PrintSumTail(e, map[], rest)) == Match(TreeSumTail(consts, map[], e), rest)
    decreases e, 1
  {
    match e
    case NoMoreTerms =>
    case NextTerm(pad, op, term, tail) =>
      var after := PrintSumTail(tail, map[], rest);
      var text := PrintProduct(term, map[], after);
      SkipTo(pad, [op] + text);
      assert ([op] + text)[1..] == text;
      TailEndsProduct(tail, consts, rest);
      ParsesProduct(consts, term, after);
      ParsesSumTail(consts, tail, rest);
  }

  lemma {:induction false} ParsesProduct(consts: Constants, e: Product, rest: string)
    requires ApartNames(consts) && ValidProduct(consts, e) && NoHolderProduct(e) && EndsProduct(rest)
    ensures ParseTerm(consts, PrintProduct(e, map[], rest)) == Match(TreeProduct(consts, map[], e), rest)
    decreases e, 1
  {
    ParsesFactor(consts, e.first, PrintProductTail(e.rest, map[], rest));
    ParsesProductTail(consts, e.rest, rest);
  }

  lemma {:induction false} ParsesProductTail(consts: Constants, e: ProductTail, rest: string)
    requires ApartNames(consts) && ValidProductTail(consts, e) && NoHolderProductTail(e) && EndsProduct(rest)
    ensures ParseProducts(consts, PrintProductTail(e, map[], rest)) == Match(TreeProductTail(consts, map[], e), rest)
    decreases e, 1
  {
    match e
    case NoMoreFactors =>
    case NextFactor(pad, op, factor, tail) =>
      var after := PrintProductTail(tail, map[], rest);
      var text := PrintFactor(factor, map[], after);
      SkipTo(pad, [op] + text);
      assert ([op] + text)[1..] == text;
      ParsesFactor(consts, factor, after);
      ParsesProductTail(consts, tail, rest);
  }

  lemma {:induction false} ParsesFactor(consts: Constants, e: Factor, rest: string)
    requires ApartNames(consts) && ValidFactor(consts, e) && NoHolderFactor(e) && Boundary(rest)
    ensures ParseFactor(consts, PrintFactor(e, map[], rest)) == Match(TreeFactor(consts, map[], e), rest)
    decreases e, 1
  {
    match e
    case Number(pad, text) => ReadsNumeral(consts, pad, text, rest);
    case Group(pad, body, close) =>
      ParsesGroup(consts, body, close, rest);
      ReadsGroup(consts, pad, PrintSum(body, map[], close + (")" + rest)));
    case SignOf(pad, sign, factor) =>
      ParsesFactor(consts, factor, rest);
      NoBareNumeral(consts, factor, rest);
      ReadsSign(consts, pad, sign, PrintFactor(factor, map[], rest));
    case Call1(pad, name, open, arg, close) =>
      ParsesGroup(consts, arg, close, rest);
      ReadsUnaryCall(consts, pad, name, open, PrintSum(arg, map[], close + (")" + rest)));
    case Call2(pad, name, open, arg1, comma, arg2, close) =>
      var second := PrintSum(arg2, map[], close + (")" + rest));
      ParsesGroup(consts, arg2, close, rest);
      ClosingToken(comma, ",", second);
      ParsesSum(consts, arg1, comma + ("," + second));
      ReadsBinaryCall(consts, pad, name, open, PrintSum(arg1, map[], comma + ("," + second)));
    case Constant(pad, name) =>
      NameIsNoNumeral(name, rest);
      ReadsName(consts, pad, name + rest);
      ParsesConstant(consts, name, rest);
  }

  lemma {:induction false} ParsesGroup(consts: Constants, e: Sum, close: string, rest: string)
    requires ApartNames(consts) && ValidSum(consts, e) && NoHolderSum(e) && AllSpace(close)
    ensures ParseGroup(consts, PrintSum(e, map[], close + (")" + rest))) == Match(TreeSum(consts, map[], e), rest)
    decreases e, 2
  {
    ClosingToken(close, ")", rest);
    ParsesSum(consts, e, close + (")" + rest));
  }

  lemma ReadsNumeral(consts: Constants, pad: string, text: string, rest: string)
    requires AllSpace(pad) && IsNumeral(text) && Boundary(rest)
    ensures ParseFactor(consts, pad + (text + rest)) == Match(Fp(NumeralValue(consts, text)), rest)
  {
    NumeralAppend(text, rest);
    SkipTo(pad, text + rest);
    assert (text + rest)[..|text|] == text && (text + rest)[|text|..] == rest;
  }

  lemma ReadsGroup(consts: Constants, pad: string, text: string)
    requires AllSpace(pad)
    ensures ParseFactor(consts, pad + ("(" + text)) == ParseGroup(consts, text)
  {
    SkipTo(pad, "(" + text);
    NotUnsigned("(" + text);
    assert ("(" + text)[1..] == text;
  }

  lemma ReadsSign(consts: Constants, pad: string, sign: char, text: string)
    requires AllSpace(pad) && IsSign(sign) && UnsignedLength(text) == 0
    ensures ParseFactor(consts, pad + ([sign] + text)) == ParseSigned(consts, sign, text)
  {
    SkipTo(pad, [sign] + text);
    assert ([sign] + text)[1..] == text;
  }

  /** A text that starts like a name is neither a group nor signed. */
  lemma ReadsName(consts: Constants, pad: string, t: string)
    requires AllSpace(pad) && t != "" && IsNameStart(t[0]) && UnsignedLength(t) == 0
    ensures ParseFactor(consts, pad + t) == ParseName(consts, t)
  {
    SkipTo(pad, t);
  }

  lemma ReadsFunctionName(consts: Constants, pad: string, name: string, tail: string)
    requires AllSpace(pad) && (name in UNARY_NAMES || name in BINARY_NAMES)
    ensures ParseFactor(consts, pad + (name + tail)) == ParseName(consts, name + tail)
  {
    NamesAreNames();
    NotUnsigned(name + tail);
    ReadsName(consts, pad, name + tail);
  }

  /** A unary name commits to its own call. */
  lemma ReadsUnaryCall(consts: Constants, pad: string, name: string, open: string, body: string)
    requires AllSpace(pad) && AllSpace(open) && name in UNARY_NAMES
    ensures ParseFactor(consts, pad + (name + (open + ("(" + body))))
      == ParseUnaryCall(consts, name, open + ("(" + body))
    ensures Expect('(', open + ("(" + body)) == Some(body)
  {
    var tail := open + ("(" + body);
    ReadsFunctionName(consts, pad, name, tail);
    OpeningToken(open, body);
    FirstPrefixFindsName(UNARY_NAMES, name, tail);
    assert (name + tail)[|name|..] == tail;
  }

  lemma ReadsBinaryCall(consts: Constants, pad: string, name: string, open: string, body: string)
    requires AllSpace(pad) && AllSpace(open) && name in BINARY_NAMES
    ensures ParseFactor(consts, pad + (name + (open + ("(" + body)))) ==
            ParseBinaryCall(consts, name, open + ("(" + body))
    ensures Expect('(', open + ("(" + body)) == Some(body)
  {
    var tail := open + ("(" + body);
    ReadsFunctionName(consts, pad, name, tail);
    OpeningToken(open, body);
    FirstPrefixNone(UNARY_NAMES, name, tail) by { NamesAreNames(); NoUnaryBeforeBinary(name); }
    FirstPrefixFindsName(BINARY_NAMES, name, tail);
    assert (name + tail)[|name|..] == tail;
  }

  lemma ParsesConstant(consts: Constants, name: string, rest: string)
    requires ApartNames(consts) && name in consts.names && IsIdentifier(name) && Unshadowed(name) && Boundary(rest)
    ensures ParseName(consts, name + rest) == Match(Fp(consts.names[name]), rest)
  {
    var t := name + rest;
    NamesAreNames();
    FirstPrefixNone(UNARY_NAMES, name, rest);
    FirstPrefixNone(BINARY_NAMES, name, rest);
    LongestConstantFinds(consts, name, rest);
    assert t[..|name|] == name && t[|name|..] == rest;
  }

  lemma FirstPrefixFindsName(names: seq<string>, name: string, tail: string)
    requires names == UNARY_NAMES || names == BINARY_NAMES
    requires name in names && (tail == "" || !IsNameChar(tail[0]))
    ensures FirstPrefix(names, name + tail) == Some(name)
  {
    NamesPrefixOrdered();
    NamesAreNames();
    var i :| 0 <= i < |names| && names[i] == name;
    FirstPrefixFinds(names, i, tail);
  }

  /** The round trip: every text of the language, however spaced, parses to its tree. */
  lemma RoundTrip(consts: Constants, e: Sum, trailing: string)
    requires ApartNames(consts) && ValidSum(consts, e) && NoHolderSum(e) && AllSpace(trailing)
    ensures Parse(consts, PrintSum(e, map[], trailing)) == Some(TreeSum(consts, map[], e))
  {
    SkipTo(trailing, "");
    assert trailing + "" == trailing;
    ParsesSum(consts, e, trailing);
  }

  lemma {:induction false} FirstPrefixExists(names: seq<string>, f: string, s: string)
    requires f in names && f <= s
    ensures FirstPrefix(names, s).Some?
  {
    if !(names[0] <= s) {
      FirstPrefixExists(names[1..], f, s);
    }
  }

  lemma NoCallFollows(g: string, name: string, rest: string)
    requires IsIdentifier(name) && EndsProduct(rest) && g <= name
    ensures var s := name + rest; g <= s && Expect('(', s[|g|..]) == None
  {
    var s := name + rest;
    assert s[|g|..] == name[|g|..] + rest;
    assert g == s[..|g|];
    if |g| == |name| {
      assert s[|g|..] == rest;
    }
  }

  lemma FirstPrefixShadows(names: seq<string>, f: string, name: string, rest: string)
    requires NameChars(names) && f in names && f <= name && IsIdentifier(name) && EndsProduct(rest)
    ensures var s := name + rest;
            var g := FirstPrefix(names, s);
            g.Some? && Expect('(', s[|g.value|..]) == None
  {
    assert name == (name + rest)[..|name|];
    FirstPrefixExists(names, f, name + rest);
    var g := FirstPrefix(names, name + rest).value;
    var i :| 0 <= i < |names| && names[i] == g;
    PrefixWithinName(g, name, rest);
    NoCallFollows(g, name, rest);
  }

  /** Once the grammar has taken a function name, a constant that merely starts with it is lost. */
  lemma ShadowedConstantFails(consts: Constants, name: string, rest: string)
    requires IsIdentifier(name) && EndsProduct(rest) && !Unshadowed(name) && !StartsNan(name) && !StartsInf(name)
    ensures ParseName(consts, name + rest) == Failure
  {
    var f :| (f in UNARY_NAMES || f in BINARY_NAMES) && f <= name;
    assert NameChars(UNARY_NAMES) && NameChars(BINARY_NAMES) by { NamesAreNames(); }
    if u :| u in UNARY_NAMES && u <= name {
      FirstPrefixShadows(UNARY_NAMES, u, name, rest);
    } else {
      FirstPrefixNone(UNARY_NAMES, name, rest);
      FirstPrefixShadows(BINARY_NAMES, f, name, rest);
    }
  }
}
