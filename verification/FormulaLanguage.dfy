/** The converse of the round trip: whatever the grammar accepts is a text of the language,
    and the tree it builds is the one that text stands for. */
module FormulaLanguage {
  import opened FormulaAst
  import opened Decimal
  import opened FormulaGrammar
  import opened FormulaSyntax
  import opened Wrappers

  // ----- what a token consumed -----

  function PadOf(s: string): (pad: string)
    ensures |pad| == |s| - |Skip(s)|
  {
    s[..|s| - |Skip(s)|]
  }

  lemma {:induction false} SkipSplits(s: string)
    ensures AllSpace(PadOf(s)) && s == PadOf(s) + Skip(s)
  {
    if s != "" && IsSpace(s[0]) {
      SkipSplits(s[1..]);
      var n := |s| - |Skip(s)|;
      assert s[..n] == [s[0]] + s[1..][..n - 1];
      assert s == [s[0]] + s[1..];
    }
  }

  lemma {:induction false} DigitsLengthPrefix(s: string, n: nat)
    requires n <= |s|
    ensures DigitsLength(s[..n]) == if DigitsLength(s) < n then DigitsLength(s) else n
  {
    if n > 0 && IsDigit(s[0]) {
      assert s[..n][1..] == s[1..][..n - 1];
      DigitsLengthPrefix(s[1..], n - 1);
    }
  }

  lemma ExponentPrefix(s: string)
    ensures var x := ExponentLength(s); ExponentLength(s[..x]) == x
  {
    var x := ExponentLength(s);
    if x > 0 {
      var sign := if |s| > 1 && IsSign(s[1]) then 1 else 0;
      assert s[..x][1 + sign..] == s[1 + sign..][..x - 1 - sign];
      DigitsLengthPrefix(s[1 + sign..], x - 1 - sign);
    }
  }

  lemma MantissaPrefix(s: string, n: nat)
    requires MantissaLength(s) <= n <= |s| && MantissaLength(s) > 0
    requires n > MantissaLength(s) ==> !IsDigit(s[MantissaLength(s)])
    ensures MantissaLength(s[..n]) == MantissaLength(s)
  {
    var w := DigitsLength(s);
    DigitsLengthPrefix(s, n);
    if w < |s| && s[w] == '.' {
      assert s[..n][w + 1..] == s[w + 1..][..n - w - 1];
      DigitsLengthPrefix(s[w + 1..], n - w - 1);
    }
  }

  lemma {:induction false} ClosePrefix(s: string)
    ensures CloseLength(s[..CloseLength(s)]) == CloseLength(s)
  {
    if s != "" && s[0] != ')' && CloseLength(s[1..]) > 0 {
      ClosePrefix(s[1..]);
      assert s[..CloseLength(s)][1..] == s[1..][..CloseLength(s[1..])];
    }
  }

  lemma SpecialPrefix(s: string)
    ensures var n := SpecialLength(s); SpecialLength(s[..n]) == n
  {
    var n := SpecialLength(s);
    if n > 3 && StartsNan(s) {
      ClosePrefix(s[4..]);
      assert s[..n][4..] == s[4..][..n - 4];
    }
  }

  lemma UnsignedPrefix(s: string)
    ensures var n := UnsignedLength(s); UnsignedLength(s[..n]) == n
  {
    var m, n := MantissaLength(s), UnsignedLength(s);
    if m > 0 {
      MantissaPrefix(s, n);
      assert s[..n][m..] == s[m..][..n - m];
      ExponentPrefix(s[m..]);
    } else if n > 0 {
      SpecialPrefix(s);
    }
  }

  lemma NumeralPrefix(s: string)
    requires NumeralLength(s) > 0
    ensures IsNumeral(s[..NumeralLength(s)])
  {
    var n := NumeralLength(s);
    if IsSign(s[0]) {
      assert s[..n][1..] == s[1..][..n - 1];
      UnsignedPrefix(s[1..]);
    } else {
      UnsignedPrefix(s);
    }
  }

  lemma {:induction false} NoPrefix(names: seq<string>, s: string)
    requires FirstPrefix(names, s) == None
    ensures forall f :: f in names ==> !(f <= s)
  {
    if names != [] {
      NoPrefix(names[1..], s);
      assert forall f :: f in names ==> f == names[0] || f in names[1..];
    }
  }

  lemma ExpectSplits(c: char, s: string)
    requires Expect(c, s).Some?
    ensures AllSpace(PadOf(s)) && s == PadOf(s) + ([c] + Expect(c, s).value)
  {
    SkipSplits(s);
    assert Skip(s) == [c] + Skip(s)[1..];
  }

  // ----- soundness of the rules -----

  /** What comes after a token that was read. An opening parenthesis there never leads to a
      parse of the whole text, and may have kept nan from being read as a numeral. */
  predicate NoOpen(rest: string) { rest == "" || rest[0] != '(' }

  lemma {:induction false} SumSound(consts: Constants, s: string) returns (e: Sum)
    requires PlainNames(consts) && ParseExpression(consts, s).Match? && NoOpen(ParseExpression(consts, s).rest)
    ensures ValidSum(consts, e) && NoHolderSum(e)
    ensures var r := ParseExpression(consts, s);
            TreeSum(consts, map[], e) == r.value && PrintSum(e, map[], r.rest) == s
    decreases |s|, 4
  {
    var first := ProductSound(consts, s);
    var tail := SumTailSound(consts, ParseTerm(consts, s).rest);
    e := Sum(first, tail);
  }

  lemma {:induction false} SumTailSound(consts: Constants, s: string) returns (e: SumTail)
    requires PlainNames(consts) && ParseSums(consts, s).Match? && NoOpen(ParseSums(consts, s).rest)
    ensures ValidSumTail(consts, e) && NoHolderSumTail(e)
    ensures var r := ParseSums(consts, s);
            TreeSumTail(consts, map[], e) == r.value && PrintSumTail(e, map[], r.rest) == s
    decreases |s|, 0
  {
    var t := Skip(s);
    if t != "" && IsSign(t[0]) {
      var term := ProductSound(consts, t[1..]);
      var tail := SumTailSound(consts, ParseTerm(consts, t[1..]).rest);
      e := NextTerm(PadOf(s), t[0], term, tail);
      NextTermSound(consts, s, term, tail);
    } else {
      e := NoMoreTerms;
    }
  }

  lemma NextTermSound(consts: Constants, s: string, term: Product, tail: SumTail)
    requires Skip(s) != "" && IsSign(Skip(s)[0])
    requires ParseTerm(consts, Skip(s)[1..]).Match? && ParseSums(consts, ParseTerm(consts, Skip(s)[1..]).rest).Match?
    requires var r := ParseTerm(consts, Skip(s)[1..]);
             TreeProduct(consts, map[], term) == r.value && PrintProduct(term, map[], r.rest) == Skip(s)[1..]
    requires var r := ParseTerm(consts, Skip(s)[1..]);
             var q := ParseSums(consts, r.rest);
             TreeSumTail(consts, map[], tail) == q.value && PrintSumTail(tail, map[], q.rest) == r.rest
    ensures var r := ParseSums(consts, s);
            var e := NextTerm(PadOf(s), Skip(s)[0], term, tail);
            AllSpace(PadOf(s)) && TreeSumTail(consts, map[], e) == r.value && PrintSumTail(e, map[], r.rest) == s
  {
    var t := Skip(s);
    SkipSplits(s);
    assert t == [t[0]] + t[1..];
  }

  lemma {:induction false} ProductSound(consts: Constants, s: string) returns (e: Product)
    requires PlainNames(consts) && ParseTerm(consts, s).Match? && NoOpen(ParseTerm(consts, s).rest)
    ensures ValidProduct(consts, e) && NoHolderProduct(e)
    ensures var r := ParseTerm(consts, s);
            TreeProduct(consts, map[], e) == r.value && PrintProduct(e, map[], r.rest) == s
    decreases |s|, 3
  {
    var first := FactorSound(consts, s);
    var tail := ProductTailSound(consts, ParseFactor(consts, s).rest);
    e := Product(first, tail);
  }

  lemma {:induction false} ProductTailSound(consts: Constants, s: string) returns (e: ProductTail)
    requires PlainNames(consts) && ParseProducts(consts, s).Match? && NoOpen(ParseProducts(consts, s).rest)
    ensures ValidProductTail(consts, e) && NoHolderProductTail(e)
    ensures var r := ParseProducts(consts, s);
            TreeProductTail(consts, map[], e) == r.value && PrintProductTail(e, map[], r.rest) == s
    decreases |s|, 0
  {
    var t := Skip(s);
    if t != "" && (t[0] == '*' || t[0] == '/') {
      var factor := FactorSound(consts, t[1..]);
      var tail := ProductTailSound(consts, ParseFactor(consts, t[1..]).rest);
      e := NextFactor(PadOf(s), t[0], factor, tail);
      NextFactorSound(consts, s, factor, tail);
    } else {
      e := NoMoreFactors;
    }
  }

  lemma NextFactorSound(consts: Constants, s: string, factor: Factor, tail: ProductTail)
    requires Skip(s) != "" && (Skip(s)[0] == '*' || Skip(s)[0] == '/')
    requires ParseFactor(consts, Skip(s)[1..]).Match? &&
      ParseProducts(consts, ParseFactor(consts, Skip(s)[1..]).rest).Match?
    requires var r := ParseFactor(consts, Skip(s)[1..]);
             TreeFactor(consts, map[], factor) == r.value && PrintFactor(factor, map[], r.rest) == Skip(s)[1..]
    requires var r := ParseFactor(consts, Skip(s)[1..]);
             var q := ParseProducts(consts, r.rest);
             TreeProductTail(consts, map[], tail) == q.value && PrintProductTail(tail, map[], q.rest) == r.rest
    ensures var r := ParseProducts(consts, s);
            var e := NextFactor(PadOf(s), Skip(s)[0], factor, tail);
            AllSpace(PadOf(s)) && TreeProductTail(consts, map[], e) == r.value &&
              PrintProductTail(e, map[], r.rest) == s
  {
    var t := Skip(s);
    SkipSplits(s);
    assert t == [t[0]] + t[1..];
  }

  lemma {:induction false} FactorSound(consts: Constants, s: string) returns (e: Factor)
    requires PlainNames(consts) && ParseFactor(consts, s).Match? && NoOpen(ParseFactor(consts, s).rest)
    ensures ValidFactor(consts, e) && NoHolderFactor(e)
    ensures var r := ParseFactor(consts, s);
            TreeFactor(consts, map[], e) == r.value && PrintFactor(e, map[], r.rest) == s
    decreases |s|, 2
  {
    var t := Skip(s);
    var n := NumeralLength(t);
    var pad := PadOf(s);
    SkipSplits(s);
    if n > 0 {
      e := NumeralSound(consts, pad, t);
    } else if t[0] == '(' {
      var body, close := GroupSound(consts, t[1..]);
      e := Group(pad, body, close);
      assert t == "(" + t[1..];
    } else if IsSign(t[0]) {
      e := SignSound(consts, pad, t);
    } else {
      e := NameSound(consts, pad, t);
    }
  }

  lemma NumeralSound(consts: Constants, pad: string, t: string) returns (e: Factor)
    requires AllSpace(pad) && NumeralLength(t) > 0
    ensures ValidFactor(consts, e) && NoHolderFactor(e)
    ensures var n := NumeralLength(t);
            TreeFactor(consts, map[], e) == Fp(NumeralValue(consts, t[..n])) && PrintFactor(e, map[], t[n..]) == pad + t
  {
    var n := NumeralLength(t);
    NumeralPrefix(t);
    e := Number(pad, t[..n]);
    assert t == t[..n] + t[n..];
  }

  lemma {:induction false} SignSound(consts: Constants, pad: string, t: string) returns (e: Factor)
    requires PlainNames(consts) && AllSpace(pad)
    requires t != "" && IsSign(t[0]) && NumeralLength(t) == 0
    requires ParseSigned(consts, t[0], t[1..]).Match? && NoOpen(ParseSigned(consts, t[0], t[1..]).rest)
    ensures ValidFactor(consts, e) && NoHolderFactor(e)
    ensures var r := ParseSigned(consts, t[0], t[1..]);
            TreeFactor(consts, map[], e) == r.value && PrintFactor(e, map[], r.rest) == pad + t
    decreases |t|, 0
  {
    var factor := FactorSound(consts, t[1..]);
    var rest := ParseFactor(consts, t[1..]).rest;
    UnsignedBehindSign(t);
    NotBare(factor, t[1..], rest);
    SignPrints(pad, t, factor, rest);
    e := SignOf(pad, t[0], factor);
  }

  lemma UnsignedBehindSign(t: string)
    requires t != "" && IsSign(t[0]) && NumeralLength(t) == 0
    ensures UnsignedLength(t[1..]) == 0
  {
  }

  lemma SignPrints(pad: string, t: string, factor: Factor, rest: string)
    requires t != "" && PrintFactor(factor, map[], rest) == t[1..]
    ensures PrintFactor(SignOf(pad, t[0], factor), map[], rest) == pad + t
  {
    assert t == [t[0]] + t[1..];
  }

  /** Had a numeral followed the sign at once, the sign would have been read as its first
      character. */
  lemma NotBare(e: Factor, t: string, rest: string)
    requires UnsignedLength(t) == 0 && t == PrintFactor(e, map[], rest) && NoOpen(rest)
    requires e.Number? ==> IsNumeral(e.text)
    ensures !IsBareNumeral(e)
  {
    if IsBareNumeral(e) {
      assert t == e.text + rest;
      UnsignedStays(e.text, rest);
    }
  }

  /** A text that starts with a numeral still does so with more text behind it, unless that
      opens a parenthesis. */
  lemma UnsignedStays(a: string, b: string)
    requires UnsignedLength(a) > 0 && NoOpen(b)
    ensures UnsignedLength(a + b) > 0
  {
    if MantissaLength(a) > 0 {
      MantissaStays(a, b);
    } else if |a| > 3 && StartsNan(a) && a[3] == '(' {
      CloseAppend(a[4..], b);
      assert (a + b)[4..] == a[4..] + b;
    } else {
      assert forall i :: 0 <= i < |a| ==> (a + b)[i] == a[i];
      assert b != "" ==> (a + b)[|a|] == b[0];
    }
  }

  lemma MantissaStays(a: string, b: string)
    requires MantissaLength(a) > 0
    ensures MantissaLength(a + b) > 0
  {
    DigitsGrow(a, b);
    if DigitsLength(a) == 0 {
      assert (a + b)[1..] == a[1..] + b;
      DigitsGrow(a[1..], b);
    }
  }

  lemma {:induction false} DigitsGrow(a: string, b: string)
    ensures DigitsLength(a + b) >= DigitsLength(a)
  {
    if a != "" && IsDigit(a[0]) {
      assert (a + b)[1..] == a[1..] + b;
      DigitsGrow(a[1..], b);
    }
  }

  lemma {:induction false} GroupSound(consts: Constants, s: string) returns (body: Sum, close: string)
    requires PlainNames(consts) && ParseGroup(consts, s).Match?
    ensures ValidSum(consts, body) && NoHolderSum(body) && AllSpace(close)
    ensures var r := ParseGroup(consts, s);
            TreeSum(consts, map[], body) == r.value && PrintSum(body, map[], close + (")" + r.rest)) == s
    decreases |s|, 5
  {
    body := SumSound(consts, s);
    var after := ParseExpression(consts, s).rest;
    ExpectSplits(')', after);
    close := PadOf(after);
  }

  lemma {:induction false} NameSound(consts: Constants, pad: string, t: string) returns (e: Factor)
    requires PlainNames(consts) && AllSpace(pad) && NumeralLength(t) == 0 && StartsOtherwise(t)
    requires ParseName(consts, t).Match? && NoOpen(ParseName(consts, t).rest)
    ensures ValidFactor(consts, e) && NoHolderFactor(e)
    ensures var r := ParseName(consts, t);
            TreeFactor(consts, map[], e) == r.value && PrintFactor(e, map[], r.rest) == pad + t
    decreases |t|, 1
  {
    var unary, binary := FirstPrefix(UNARY_NAMES, t), FirstPrefix(BINARY_NAMES, t);
    if unary.Some? {
      e := UnarySound(consts, pad, unary.value, t[|unary.value|..]);
      assert t == unary.value + t[|unary.value|..];
    } else if binary.Some? {
      e := BinarySound(consts, pad, binary.value, t[|binary.value|..]);
      assert t == binary.value + t[|binary.value|..];
    } else {
      e := ConstantSound(consts, pad, t, LongestConstant(consts, t, |t|));
    }
  }

  lemma ConstantSound(consts: Constants, pad: string, t: string, k: nat) returns (e: Factor)
    requires PlainNames(consts) && AllSpace(pad) && 0 < k <= |t| && t[..k] in consts.names
    requires NumeralLength(t) == 0 && StartsOtherwise(t) && NoOpen(t[k..])
    requires FirstPrefix(UNARY_NAMES, t) == None && FirstPrefix(BINARY_NAMES, t) == None
    ensures ValidFactor(consts, e) && NoHolderFactor(e)
    ensures TreeFactor(consts, map[], e) == Fp(consts.names[t[..k]]) && PrintFactor(e, map[], t[k..]) == pad + t
  {
    NoPrefix(UNARY_NAMES, t);
    NoPrefix(BINARY_NAMES, t);
    assert t == t[..k] + t[k..];
    forall f | f in UNARY_NAMES || f in BINARY_NAMES
      ensures !(f <= t[..k])
    {
      assert !(f <= t);
    }
    IsReadWhole(t, k);
    NoNumeralInName(t, k);
    e := Constant(pad, t[..k]);
  }

  /** Neither white space, nor a group, nor a sign. */
  predicate StartsOtherwise(t: string) { t == "" || (!IsSpace(t[0]) && t[0] != '(' && !IsSign(t[0])) }

  /** A name that is found is one that is read. */
  lemma IsReadWhole(t: string, k: nat)
    requires 0 < k <= |t| && NumeralLength(t) == 0 && StartsOtherwise(t) && NoOpen(t[k..])
    requires forall f :: f in UNARY_NAMES || f in BINARY_NAMES ==> !(f <= t[..k])
    ensures !NeverRead(t[..k])
  {
    assert t == t[..k] + t[k..];
    if UnsignedLength(t[..k]) > 0 {
      UnsignedStays(t[..k], t[k..]);
    }
  }

  /** nan is only left to the constants if a parenthesis follows that is never closed. */
  lemma NoNumeralInName(t: string, k: nat)
    requires 0 < k <= |t| && IsIdentifier(t[..k]) && NumeralLength(t) == 0 && NoOpen(t[k..])
    ensures !StartsNan(t[..k]) && !StartsInf(t[..k])
  {
    var name := t[..k];
    assert forall i :: 0 <= i < k ==> t[i] == name[i];
    assert k < |t| ==> t[k..][0] == t[k];
  }

  lemma {:induction false} UnarySound(consts: Constants, pad: string, name: string, s: string) returns (e: Factor)
    requires PlainNames(consts) && AllSpace(pad) && name in UNARY_NAMES && ParseUnaryCall(consts, name, s).Match?
    ensures ValidFactor(consts, e) && NoHolderFactor(e)
    ensures var r := ParseUnaryCall(consts, name, s);
            TreeFactor(consts, map[], e) == r.value && PrintFactor(e, map[], r.rest) == pad + (name + s)
    decreases |s|, 0
  {
    ExpectSplits('(', s);
    var arg, close := GroupSound(consts, Expect('(', s).value);
    e := Call1(pad, name, PadOf(s), arg, close);
  }

  lemma {:induction false} BinarySound(consts: Constants, pad: string, name: string, s: string) returns (e: Factor)
    requires PlainNames(consts) && AllSpace(pad) && name in BINARY_NAMES && ParseBinaryCall(consts, name, s).Match?
    ensures ValidFactor(consts, e) && NoHolderFactor(e)
    ensures var r := ParseBinaryCall(consts, name, s);
            TreeFactor(consts, map[], e) == r.value && PrintFactor(e, map[], r.rest) == pad + (name + s)
    decreases |s|, 0
  {
    ExpectSplits('(', s);
    var body := Expect('(', s).value;
    var arg1 := SumSound(consts, body);
    var rest := ParseExpression(consts, body).rest;
    ExpectSplits(',', rest);
    var arg2, close := GroupSound(consts, Expect(',', rest).value);
    e := Call2(pad, name, PadOf(s), arg1, PadOf(rest), arg2, close);
  }

  // ----- the grammar and its language -----

  /** A text of the language, with any spacing, and the tree it stands for. */
  ghost predicate StandsFor(consts: Constants, text: string, x: Operand) {
    exists e: Sum, trailing: string :: IsTextOf(consts, text, x, e, trailing)
  }

  ghost predicate IsTextOf(consts: Constants, text: string, x: Operand, e: Sum, trailing: string) {
    ValidSum(consts, e) && NoHolderSum(e) && AllSpace(trailing) &&
    text == PrintSum(e, map[], trailing) && x == TreeSum(consts, map[], e)
  }

  ghost predicate IsExactAt(consts: Constants, text: string, x: Operand) {
    Parse(consts, text) == Some(x) <==> StandsFor(consts, text, x)
  }

  /** The parser accepts exactly the spaced texts of the language, and gives each the one
      tree it stands for. */
  lemma ParserIsExact(consts: Constants, text: string, x: Operand)
    requires PlainNames(consts)
    ensures Parse(consts, text) == Some(x) <==> StandsFor(consts, text, x)
  {
    if Parse(consts, text) == Some(x) {
      var e := SumSound(consts, text);
      var trailing := ParseExpression(consts, text).rest;
      SkipSplits(trailing);
      assert IsTextOf(consts, text, x, e, trailing);
    }
    PlainIsApart(consts);
    forall e: Sum, trailing: string | IsTextOf(consts, text, x, e, trailing)
      ensures Parse(consts, text) == Some(x)
    {
      RoundTrip(consts, e, trailing);
    }
  }

  // ----- which constants leave the language as it is -----

  /** The tree of a single number. */
  function Single(v: real): Operand { AstExpression(AstExpression(Fp(v), End), End) }

  lemma {:induction false} NoPrefixFound(names: seq<string>, t: string)
    requires forall f :: f in names ==> !(f <= t)
    ensures FirstPrefix(names, t) == None
  {
    if names != [] {
      assert names[0] in names && forall f :: f in names[1..] ==> f in names;
      NoPrefixFound(names[1..], t);
    }
  }

  /** A name that is not overlooked is read as a whole. */
  lemma NameIsParsed(consts: Constants, name: string)
    requires name in consts.names && !NeverRead(name)
    ensures Parse(consts, name) == Some(Single(consts.names[name]))
  {
    NoPrefixFound(UNARY_NAMES, name);
    NoPrefixFound(BINARY_NAMES, name);
    assert name[..|name|] == name && name[|name|..] == "";
    assert ParseName(consts, name) == Match(Fp(consts.names[name]), "");
    assert ParseFactor(consts, name) == Match(Fp(consts.names[name]), "");
    assert ParseProducts(consts, "") == Match(End, "") && ParseSums(consts, "") == Match(End, "");
    assert ParseTerm(consts, name) == Match(AstExpression(Fp(consts.names[name]), End), "");
    assert ParseExpression(consts, name) == Match(Single(consts.names[name]), "");
  }

  /** A text for a single number is a single token. */
  lemma OneToken(consts: Constants, e: Sum, v: real)
    requires NoHolderSum(e) && TreeSum(consts, map[], e) == Single(v)
    ensures e.rest.NoMoreTerms? && e.first.rest.NoMoreFactors? && (e.first.first.Number? || e.first.first.Constant?)
    ensures TreeFactor(consts, map[], e.first.first) == Fp(v)
  {
    assert TreeSumTail(consts, map[], e.rest) == End;
    assert TreeProduct(consts, map[], e.first) == AstExpression(Fp(v), End);
    assert TreeProductTail(consts, map[], e.first.rest) == End;
    assert TreeFactor(consts, map[], e.first.first) == Fp(v);
  }

  function TokenOf(f: Factor): string
    requires f.Number? || f.Constant?
  {
    if f.Number? then f.text else f.name
  }

  lemma PrintsToken(e: Sum, rest: string)
    requires e.rest.NoMoreTerms? && e.first.rest.NoMoreFactors? && (e.first.first.Number? || e.first.first.Constant?)
    ensures PrintSum(e, map[], rest) == e.first.first.pad + (TokenOf(e.first.first) + rest)
  {
    assert PrintSumTail(e.rest, map[], rest) == rest;
    assert PrintProductTail(e.first.rest, map[], rest) == rest;
    assert PrintProduct(e.first, map[], rest) == PrintFactor(e.first.first, map[], rest);
  }

  lemma ValidToken(consts: Constants, e: Sum)
    requires ValidSum(consts, e)
    ensures ValidFactor(consts, e.first.first)
  {
    assert ValidProduct(consts, e.first);
  }

  /** The name of another constant of the same value, with white space behind it. */
  ghost predicate IsEcho(consts: Constants, name: string)
    requires name in consts.names
  {
    exists n: nat :: n < |name| && AllSpace(name[n..]) && name[..n] in consts.names &&
                     consts.names[name[..n]] == consts.names[name]
  }

  lemma TokenInFront(name: string, pad: string, token: string, trailing: string)
    requires name == pad + (token + trailing) && AllSpace(pad) && name != "" && !IsSpace(name[0])
    ensures name == token + trailing && name[..|token|] == token && name[|token|..] == trailing
  {
  }

  /** But it is no text of the language for a single number, unless it is an identifier or an
      echo of one. */
  lemma NameIsNoText(consts: Constants, name: string, e: Sum, trailing: string)
    requires name in consts.names && !NeverRead(name) && !IsIdentifier(name) && !IsEcho(consts, name)
    ensures !IsTextOf(consts, name, Single(consts.names[name]), e, trailing)
  {
    if IsTextOf(consts, name, Single(consts.names[name]), e, trailing) {
      var f := e.first.first;
      OneToken(consts, e, consts.names[name]);
      PrintsToken(e, trailing);
      ValidToken(consts, e);
      TokenInFront(name, f.pad, TokenOf(f), trailing);
      if f.Number? {
        NumeralInFront(f.text, trailing);
      } else {
        EchoOrName(consts, name, f.name, trailing);
      }
    }
  }

  lemma EchoOrName(consts: Constants, name: string, n: string, trailing: string)
    requires name in consts.names && name == n + trailing && AllSpace(trailing)
    requires n in consts.names && consts.names[n] == consts.names[name]
    ensures name == n || IsEcho(consts, name)
  {
    assert name[..|n|] == n && name[|n|..] == trailing;
    if trailing == "" {
      assert name == n;
    }
  }

  /** A text that starts with a numeral, up to white space, is read as that. */
  lemma NumeralInFront(text: string, trailing: string)
    requires IsNumeral(text) && AllSpace(trailing)
    ensures NeverRead(text + trailing)
  {
    if !IsSign(text[0]) {
      UnsignedStays(text, trailing);
    }
  }

  lemma OddName(consts: Constants) returns (name: string)
    requires !PlainNames(consts)
    ensures name in consts.names && !IsIdentifier(name) && !NeverRead(name)
  {
    name :| name in consts.names && !IsIdentifier(name) && !NeverRead(name);
  }

  lemma OddNameIsRead(consts: Constants, name: string)
    requires name in consts.names && !NeverRead(name) && !IsIdentifier(name) && !IsEcho(consts, name)
    ensures !IsExactAt(consts, name, Single(consts.names[name]))
  {
    NameIsParsed(consts, name);
    forall e: Sum, trailing: string ensures !IsTextOf(consts, name, Single(consts.names[name]), e, trailing) {
      NameIsNoText(consts, name, e, trailing);
    }
  }

  ghost predicate IsExact(consts: Constants) { forall text, x :: IsExactAt(consts, text, x) }

  lemma PlainIsExact(consts: Constants)
    requires PlainNames(consts)
    ensures IsExact(consts)
  {
    forall text, x ensures IsExactAt(consts, text, x) {
      ParserIsExact(consts, text, x);
    }
  }

  lemma OddIsNotExact(consts: Constants, name: string)
    requires name in consts.names && !NeverRead(name) && !IsIdentifier(name) && !IsEcho(consts, name)
    ensures !IsExact(consts)
  {
    OddNameIsRead(consts, name);
  }

  /** The parser's language is the one described if and only if the names are plain, among
      constants without echoes. */
  lemma PlainNamesDecide(consts: Constants)
    requires forall name :: name in consts.names ==> !IsEcho(consts, name)
    ensures IsExact(consts) <==> PlainNames(consts)
  {
    if PlainNames(consts) {
      PlainIsExact(consts);
    } else {
      var name := OddName(consts);
      OddIsNotExact(consts, name);
    }
  }
}
