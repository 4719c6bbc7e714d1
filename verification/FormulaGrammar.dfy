/** The five grammar rules of GFormulaParserT as a recogniser over characters. It skips white
    space in front of every token, tries alternatives in order and treats a missing token behind
    an expectation point as a failure of the whole parse. */
module FormulaGrammar {
  import opened FormulaAst
  import opened Decimal
  import opened Wrappers

  /** NoMatch lets the next alternative try; Failure is an unmet expectation, after which
      no alternative is tried any more. */
  datatype Parsed<+T> = Match(value: T, rest: string) | NoMatch | Failure

  /** The values of the named constants, and those that the numerals inf and nan stand for. */
  datatype Constants = Constants(names: map<string, real>, infinity: real, notANumber: real)

  // ----- characters and numerals -----

  predicate IsLetter(c: char) { 'a' <= c <= 'z' || 'A' <= c <= 'Z' || c == '_' }
  predicate IsSign(c: char) { c == '+' || c == '-' }

  /** The length of the exponent part at the front of `s`, 0 if there is none. */
  function ExponentLength(s: string): (n: nat)
    ensures n <= |s|
  {
    if s == "" || (s[0] != 'e' && s[0] != 'E') then 0
    else
      var sign := if |s| > 1 && IsSign(s[1]) then 1 else 0;
      var n := DigitsLength(s[1 + sign..]);
      if n == 0 then 0 else 1 + sign + n
  }

  /** Digits with an optional fraction; the whole part or the fraction may be missing. */
  function MantissaLength(s: string): (n: nat)
    ensures n <= |s|
  {
    var w := DigitsLength(s);
    if w < |s| && s[w] == '.' then
      var f := DigitsLength(s[w + 1..]);
      if w == 0 && f == 0 then 0 else w + 1 + f
    else w
  }

  predicate StartsNan(s: string) {
    |s| >= 3 && (s[0] == 'n' || s[0] == 'N') && (s[1] == 'a' || s[1] == 'A') && (s[2] == 'n' || s[2] == 'N')
  }

  predicate StartsInf(s: string) {
    |s| >= 3 && (s[0] == 'i' || s[0] == 'I') && (s[1] == 'n' || s[1] == 'N') && (s[2] == 'f' || s[2] == 'F')
  }

  predicate StartsInity(s: string) {
    |s| >= 5 && (s[0] == 'i' || s[0] == 'I') && (s[1] == 'n' || s[1] == 'N') && (s[2] == 'i' || s[2] == 'I') &&
    (s[3] == 't' || s[3] == 'T') && (s[4] == 'y' || s[4] == 'Y')
  }

  /** The length up to the first closing parenthesis, 0 if there is none. */
  function CloseLength(s: string): (n: nat)
    ensures n <= |s|
  {
    if s == "" then 0
    else if s[0] == ')' then 1
    else
      var n := CloseLength(s[1..]);
      if n == 0 then 0 else 1 + n
  }

  /** inf, infinity and nan in any case, the last with any text in parentheses directly behind
      it. No word has to end here. */
  function SpecialLength(s: string): (n: nat)
    ensures n <= |s|
  {
    if StartsNan(s) then
      if |s| > 3 && s[3] == '(' then
        var n := CloseLength(s[4..]);
        if n == 0 then 0 else 4 + n
      else 3
    else if StartsInf(s) then
      if StartsInity(s[3..]) then 8 else 3
    else 0
  }

  function UnsignedLength(s: string): (n: nat)
    ensures n <= |s|
  {
    var m := MantissaLength(s);
    if m == 0 then SpecialLength(s) else m + ExponentLength(s[m..])
  }

  /** The length of the numeral at the front of `s`, 0 if there is none. */
  function NumeralLength(s: string): (n: nat)
    ensures n <= |s|
  {
    if s != "" && IsSign(s[0]) then
      var n := UnsignedLength(s[1..]);
      if n == 0 then 0 else 1 + n
    else UnsignedLength(s)
  }

  predicate IsNumeral(s: string) { s != "" && NumeralLength(s) == |s| }

  function FractionValue(s: string): real {
    if s == "" then 0.0 else (FractionValue(s[1..]) + DigitsValue(s[..1]) as real) / 10.0
  }

  function MantissaValue(s: string): real {
    var w := DigitsLength(s);
    DigitsValue(s[..w]) as real + if w < |s| then FractionValue(s[w + 1..]) else 0.0
  }

  /** Multiplied or divided by ten, `n` times. */
  function Scaled(x: real, down: bool, n: nat): real
    decreases n
  {
    if n == 0 then x else Scaled(if down then x / 10.0 else x * 10.0, down, n - 1)
  }

  function UnsignedValue(consts: Constants, s: string): real {
    var m := MantissaLength(s);
    if m == 0 then if StartsNan(s) then consts.notANumber else consts.infinity
    else if m == |s| then MantissaValue(s[..m])
    else
      var signed := m + 1 < |s| && IsSign(s[m + 1]);
      var digits := s[if signed then m + 2 else m + 1..];
      Scaled(MantissaValue(s[..m]), signed && s[m + 1] == '-', DigitsValue(digits))
  }

  function NumeralValue(consts: Constants, s: string): real {
    if s != "" && s[0] == '-' then -UnsignedValue(consts, s[1..])
    else if s != "" && s[0] == '+' then UnsignedValue(consts, s[1..])
    else UnsignedValue(consts, s)
  }

  // ----- names -----

  /** The first of `names` that is a prefix of `s`: the ordered choice of string parsers. */
  function FirstPrefix(names: seq<string>, s: string): (r: Option<string>)
    ensures r.Some? ==> r.value in names && r.value <= s
  {
    if names == [] then None
    else if names[0] <= s then Some(names[0])
    else FirstPrefix(names[1..], s)
  }

  /** The length of the longest constant name, at most `n` long, that is a prefix of `s`;
      0 if there is none. */
  function LongestConstant(consts: Constants, s: string, n: nat): (r: nat)
    requires n <= |s|
    ensures r <= n && (r > 0 ==> s[..r] in consts.names)
    ensures r == 0 ==> forall k :: 0 < k <= n ==> s[..k] !in consts.names
    ensures forall k :: r < k <= n ==> s[..k] !in consts.names
  {
    if n == 0 then 0 else if s[..n] in consts.names then n else LongestConstant(consts, s, n - 1)
  }

  // ----- the rules -----

  function Expect(c: char, s: string): (r: Option<string>)
    ensures r.Some? ==> |r.value| < |s|
  {
    var t := Skip(s);
    if t != "" && t[0] == c then Some(t[1..]) else None
  }

  function ParseExpression(consts: Constants, s: string): (r: Parsed<Operand>)
    ensures r.Match? ==> |r.rest| < |s| && WellFormed(r.value) && r.value.AstExpression?
    decreases |s|, 4
  {
    match ParseTerm(consts, s)
    case Match(first, rest) =>
      (match ParseSums(consts, rest)
       case Match(ops, end) => Match(AstExpression(first, ops), end)
       case _ => Failure)
    case NoMatch => NoMatch
    case Failure => Failure
  }

  function ParseSums(consts: Constants, s: string): (r: Parsed<Operations>)
    ensures !r.NoMatch?
    ensures r.Match? ==> |r.rest| <= |s| && WellFormedRest(r.value)
    decreases |s|, 0
  {
    var t := Skip(s);
    if t != "" && IsSign(t[0]) then
      match ParseTerm(consts, t[1..])
      case Match(x, rest) =>
        (match ParseSums(consts, rest)
         case Match(ops, end) => Match(Link(t[0], x, ops), end)
         case _ => Failure)
      case _ => Failure
    else Match(End, s)
  }

  function ParseTerm(consts: Constants, s: string): (r: Parsed<Operand>)
    ensures r.Match? ==> |r.rest| < |s| && WellFormed(r.value) && r.value.AstExpression?
    decreases |s|, 3
  {
    match ParseFactor(consts, s)
    case Match(first, rest) =>
      (match ParseProducts(consts, rest)
       case Match(ops, end) => Match(AstExpression(first, ops), end)
       case _ => Failure)
    case NoMatch => NoMatch
    case Failure => Failure
  }

  function ParseProducts(consts: Constants, s: string): (r: Parsed<Operations>)
    ensures !r.NoMatch?
    ensures r.Match? ==> |r.rest| <= |s| && WellFormedRest(r.value)
    decreases |s|, 0
  {
    var t := Skip(s);
    if t != "" && (t[0] == '*' || t[0] == '/') then
      match ParseFactor(consts, t[1..])
      case Match(x, rest) =>
        (match ParseProducts(consts, rest)
         case Match(ops, end) => Match(Link(t[0], x, ops), end)
         case _ => Failure)
      case _ => Failure
    else Match(End, s)
  }

  function ParseFactor(consts: Constants, s: string): (r: Parsed<Operand>)
    ensures r.Match? ==> |r.rest| < |s| && WellFormed(r.value)
    decreases |s|, 2
  {
    var t := Skip(s);
    var n := NumeralLength(t);
    if n > 0 then Match(Fp(NumeralValue(consts, t[..n])), t[n..])
    else if t != "" && t[0] == '(' then ParseGroup(consts, t[1..])
    else if t != "" && IsSign(t[0]) then ParseSigned(consts, t[0], t[1..])
    else ParseName(consts, t)
  }

  /** What follows a sign that is not part of a numeral: another factor. */
  function ParseSigned(consts: Constants, sign: char, s: string): (r: Parsed<Operand>)
    requires IsSign(sign)
    ensures r.Match? ==> |r.rest| < |s| && WellFormed(r.value)
    decreases |s|, 5
  {
    match ParseFactor(consts, s)
    case Match(x, rest) => Match(Signed(sign, x), rest)
    case _ => Failure
  }

  /** The function rules, unary before binary, and then the constants. */
  function ParseName(consts: Constants, t: string): (r: Parsed<Operand>)
    ensures r.Match? ==> |r.rest| < |t| && WellFormed(r.value)
    decreases |t|, 1
  {
    var unary := FirstPrefix(UNARY_NAMES, t);
    if unary.Some? then ParseUnaryCall(consts, unary.value, t[|unary.value|..])
    else
      var binary := FirstPrefix(BINARY_NAMES, t);
      if binary.Some? then ParseBinaryCall(consts, binary.value, t[|binary.value|..])
      else
        var k := LongestConstant(consts, t, |t|);
        if k > 0 then Match(Fp(consts.names[t[..k]]), t[k..]) else NoMatch
  }

  /** What follows an opening parenthesis: expression and closing parenthesis. */
  function ParseGroup(consts: Constants, s: string): (r: Parsed<Operand>)
    ensures r.Match? ==> |r.rest| <= |s| && WellFormed(r.value)
    decreases |s|, 5
  {
    match ParseExpression(consts, s)
    case Match(x, rest) =>
      (match Expect(')', rest)
       case Some(end) => Match(x, end)
       case None => Failure)
    case _ => Failure
  }

  function ParseUnaryCall(consts: Constants, fname: string, s: string): (r: Parsed<Operand>)
    requires fname in UNARY_NAMES
    ensures r.Match? ==> |r.rest| <= |s| && WellFormed(r.value)
    decreases |s|, 0
  {
    match Expect('(', s)
    case Some(body) =>
      (match ParseGroup(consts, body)
       case Match(x, end) => Match(UnaryFunction(fname, x), end)
       case _ => Failure)
    case None => Failure
  }

  function ParseBinaryCall(consts: Constants, fname: string, s: string): (r: Parsed<Operand>)
    requires fname in BINARY_NAMES
    ensures r.Match? ==> |r.rest| <= |s| && WellFormed(r.value)
    decreases |s|, 0
  {
    match Expect('(', s)
    case Some(body) =>
      (match ParseExpression(consts, body)
       case Match(x1, rest) =>
         (match Expect(',', rest)
          case Some(second) =>
            (match ParseGroup(consts, second)
             case Match(x2, end) => Match(BinaryFunction(fname, x1, x2), end)
             case _ => Failure)
          case None => Failure)
       case _ => Failure)
    case None => Failure
  }

  /** The whole text has to be an expression, possibly followed by white space. */
  function Parse(consts: Constants, text: string): (r: Option<Operand>)
    ensures r.Some? ==> WellFormed(r.value)
  {
    match ParseExpression(consts, text)
    case Match(x, rest) => if Skip(rest) == "" then Some(x) else None
    case _ => None
  }
}
