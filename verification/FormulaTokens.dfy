/** Which texts are read as a single number, and what becomes of the constants of a user. */
module FormulaTokens {
  import opened FormulaAst
  import opened Decimal
  import opened FormulaGrammar
  import opened FormulaSyntax
  import opened FormulaLanguage
  import opened FormulaParser
  import opened Wrappers

  // ----- a numeral that ends where the text goes on -----

  lemma {:induction false} CloseCut(a: string, b: string)
    requires 0 < CloseLength(a + b) <= |a|
    ensures CloseLength(a) == CloseLength(a + b)
  {
    assert (a + b)[1..] == a[1..] + b;
    if a[0] != ')' {
      CloseCut(a[1..], b);
    }
  }

  lemma SpecialCut(a: string, b: string)
    requires Boundary(b) && SpecialLength(a + b) == |a| > 0
    ensures SpecialLength(a) == |a|
  {
    var t := a + b;
    assert |a| >= 3 && forall i :: 0 <= i < |a| ==> t[i] == a[i];
    assert b != "" ==> t[|a|] == b[0];
    if |a| > 3 && StartsNan(a) {
      assert t[4..] == a[4..] + b;
      CloseCut(a[4..], b);
    }
  }

  lemma ExponentCut(a: string, b: string)
    requires Boundary(b) && ExponentLength(a + b) == |a|
    ensures ExponentLength(a) == |a|
  {
    if a != "" {
      var t := a + b;
      var sign := if |t| > 1 && IsSign(t[1]) then 1 else 0;
      assert |a| > 1 + sign && t[0] == a[0] && t[1] == a[1];
      assert t[1 + sign..] == a[1 + sign..] + b;
      BoundaryStops(b);
      DigitsLengthAppend(a[1 + sign..], b);
    }
  }

  lemma UnsignedCut(a: string, b: string)
    requires Boundary(b) && UnsignedLength(a + b) == |a| > 0
    ensures UnsignedLength(a) == |a|
  {
    var m := MantissaLength(a);
    BoundaryStops(b);
    MantissaAppend(a, b);
    if m > 0 {
      assert (a + b)[m..] == a[m..] + b;
      ExponentCut(a[m..], b);
    } else {
      SpecialCut(a, b);
    }
  }

  /** What is read as a numeral is one. */
  lemma NumeralCut(a: string, b: string)
    requires Boundary(b) && NumeralLength(a + b) == |a| > 0
    ensures IsNumeral(a)
  {
    assert (a + b)[0] == a[0];
    if IsSign(a[0]) {
      assert (a + b)[1..] == a[1..] + b;
      UnsignedCut(a[1..], b);
    } else {
      UnsignedCut(a, b);
    }
  }

  // ----- single numbers -----

  /** No longer constant name starts the text. */
  ghost predicate NoLonger(consts: Constants, token: string, rest: string) {
    forall name :: name in consts.names && name <= token + rest ==> |name| <= |token|
  }

  /** The number that a token stands for: that of a numeral, or that of a constant if neither a
      longer one nor anything else is read for it. */
  ghost function TokenValue(consts: Constants, token: string, rest: string): Option<real> {
    if IsNumeral(token) then Some(NumeralValue(consts, token))
    else if token != "" && token in consts.names && !NeverRead(token + rest) && NoLonger(consts, token, rest) then
      Some(consts.names[token])
    else None
  }

  /** A factor whose text starts with a numeral. */
  lemma NumeralAtFront(consts: Constants, token: string, rest: string, v: real)
    requires token != "" && !IsSpace(token[0]) && Boundary(rest) && NumeralLength(token + rest) > 0
    ensures ParseFactor(consts, token + rest) == Match(Fp(v), rest) <==> TokenValue(consts, token, rest) == Some(v)
  {
    var t := token + rest;
    var n := NumeralLength(t);
    assert t[0] == token[0] && Skip(t) == t;
    assert ParseFactor(consts, t) == Match(Fp(NumeralValue(consts, t[..n])), t[n..]);
    if n == |token| {
      NumeralCut(token, rest);
      assert t[..n] == token && t[n..] == rest;
    } else {
      assert |t[n..]| != |rest|;
      NoTokenValue(consts, token, rest);
    }
  }

  lemma NoTokenValue(consts: Constants, token: string, rest: string)
    requires token != "" && Boundary(rest) && 0 < NumeralLength(token + rest) != |token|
    ensures TokenValue(consts, token, rest) == None
  {
    if IsNumeral(token) {
      NumeralAppend(token, rest);
    }
  }

  /** A group, a sign or a call is no single number. */
  lemma TreeAtFront(consts: Constants, token: string, rest: string, v: real)
    requires token != "" && !IsSpace(token[0]) && Boundary(rest) && NumeralLength(token + rest) == 0
    requires token[0] == '(' || IsSign(token[0])
    ensures ParseFactor(consts, token + rest) != Match(Fp(v), rest) && TokenValue(consts, token, rest) == None
  {
    var t := token + rest;
    assert t[0] == token[0] && Skip(t) == t;
    NoNumeral(token, rest);
  }

  lemma NoNumeral(token: string, rest: string)
    requires Boundary(rest) && NumeralLength(token + rest) == 0
    ensures !IsNumeral(token)
  {
    if IsNumeral(token) { NumeralAppend(token, rest); }
  }

  lemma CallIsNoNumber(consts: Constants, t: string, rest: string, v: real)
    requires FirstPrefix(UNARY_NAMES, t).Some? || FirstPrefix(BINARY_NAMES, t).Some?
    ensures ParseName(consts, t) != Match(Fp(v), rest) && NeverRead(t)
  {
  }

  /** A function name is read. */
  lemma CallAtFront(consts: Constants, token: string, rest: string, v: real)
    requires token != "" && StartsOtherwise(token) && Boundary(rest) && NumeralLength(token + rest) == 0
    requires FirstPrefix(UNARY_NAMES, token + rest).Some? || FirstPrefix(BINARY_NAMES, token + rest).Some?
    ensures ParseFactor(consts, token + rest) != Match(Fp(v), rest) && TokenValue(consts, token, rest) == None
  {
    var t := token + rest;
    assert t[0] == token[0] && Skip(t) == t;
    NoNumeral(token, rest);
    CallIsNoNumber(consts, t, rest, v);
  }

  /** The longest constant name is looked up. */
  lemma LongestExact(consts: Constants, token: string, rest: string)
    requires token != ""
    ensures var t := token + rest;
            LongestConstant(consts, t, |t|) == |token| <==> token in consts.names && NoLonger(consts, token, rest)
  {
    var t := token + rest;
    var k := LongestConstant(consts, t, |t|);
    assert t[..|token|] == token;
    if k == |token| {
      forall name | name in consts.names && name <= t ensures |name| <= |token| {
        assert t[..|name|] == name;
      }
    } else if k > |token| {
      assert t[..k] <= t;
    }
  }

  lemma NothingElseInFront(t: string)
    requires t != "" && StartsOtherwise(t) && NumeralLength(t) == 0
    requires FirstPrefix(UNARY_NAMES, t) == None && FirstPrefix(BINARY_NAMES, t) == None
    ensures !NeverRead(t)
  {
    NoPrefix(UNARY_NAMES, t);
    NoPrefix(BINARY_NAMES, t);
  }

  lemma ConstantAtFront(consts: Constants, token: string, rest: string, v: real)
    requires token != "" && StartsOtherwise(token) && Boundary(rest) && NumeralLength(token + rest) == 0
    requires FirstPrefix(UNARY_NAMES, token + rest) == None && FirstPrefix(BINARY_NAMES, token + rest) == None
    ensures ParseFactor(consts, token + rest) == Match(Fp(v), rest) <==> TokenValue(consts, token, rest) == Some(v)
  {
    var t := token + rest;
    var k := LongestConstant(consts, t, |t|);
    assert t[0] == token[0] && Skip(t) == t && t[..|token|] == token && t[|token|..] == rest;
    NoNumeral(token, rest);
    NothingElseInFront(t);
    LongestExact(consts, token, rest);
    if k != |token| {
      assert |t[k..]| != |rest|;
    }
  }

  lemma TokenAtFront(consts: Constants, token: string, rest: string, v: real)
    requires token != "" && !IsSpace(token[0]) && Boundary(rest)
    ensures ParseFactor(consts, token + rest) == Match(Fp(v), rest) <==> TokenValue(consts, token, rest) == Some(v)
  {
    if NumeralLength(token + rest) > 0 {
      NumeralAtFront(consts, token, rest, v);
    } else if token[0] == '(' || IsSign(token[0]) {
      TreeAtFront(consts, token, rest, v);
    } else if FirstPrefix(UNARY_NAMES, token + rest).Some? || FirstPrefix(BINARY_NAMES, token + rest).Some? {
      CallAtFront(consts, token, rest, v);
    } else {
      ConstantAtFront(consts, token, rest, v);
    }
  }

  lemma SkippedAlike(consts: Constants, pad: string, t: string)
    requires AllSpace(pad)
    ensures ParseFactor(consts, pad + t) == ParseFactor(consts, t) && Skip(pad + t) == Skip(t)
  {
    SkipPad(pad, t);
    SkipTwice(t);
  }

  /** Without a token, what is read takes something of the rest. */
  lemma NothingInFront(consts: Constants, pad: string, token: string, rest: string, v: real)
    requires AllSpace(pad) && token == ""
    ensures ParseFactor(consts, pad + (token + rest)) != Match(Fp(v), rest) && TokenValue(consts, token, rest) == None
  {
    assert token + rest == rest;
    SkippedAlike(consts, pad, rest);
  }

  lemma SplitToken(text: string, rest: string) returns (pad: string, token: string)
    ensures AllSpace(pad) && token == Skip(text) && (token != "" ==> !IsSpace(token[0]))
    ensures text + rest == pad + (token + rest)
  {
    pad, token := PadOf(text), Skip(text);
    SkipSplits(text);
    SkipTwice(text);
    assert text + rest == (pad + token) + rest;
  }

  lemma TokenBehind(consts: Constants, pad: string, token: string, rest: string, v: real)
    requires AllSpace(pad) && token != "" && !IsSpace(token[0]) && Boundary(rest)
    ensures ParseFactor(consts, pad + (token + rest)) == Match(Fp(v), rest) <==>
            TokenValue(consts, token, rest) == Some(v)
  {
    SkippedAlike(consts, pad, token + rest);
    TokenAtFront(consts, token, rest, v);
  }

  /** A text in front of the end of a factor is read as a number exactly if, up to white space in
      front, it is a token that stands for that number. */
  lemma TokenExact(consts: Constants, text: string, rest: string, v: real)
    requires Boundary(rest)
    ensures ParseFactor(consts, text + rest) == Match(Fp(v), rest) <==>
            TokenValue(consts, Skip(text), rest) == Some(v)
  {
    var pad, token := SplitToken(text, rest);
    if token == "" {
      NothingInFront(consts, pad, token, rest, v);
    } else {
      TokenBehind(consts, pad, token, rest, v);
    }
  }

  /** A constant has its value exactly if that is what its name is read as. */
  lemma ConstantReachable(consts: Constants, name: string, rest: string)
    requires name in consts.names && Boundary(rest)
    ensures (ParseFactor(consts, name + rest) == Match(Fp(consts.names[name]), rest)) <==>
            TokenValue(consts, Skip(name), rest) == Some(consts.names[name])
  {
    TokenExact(consts, name, rest, consts.names[name]);
  }

  // ----- plain names -----

  lemma NoFunctionInFront(token: string, rest: string)
    requires IsIdentifier(token) && Unshadowed(token) && Boundary(rest)
    ensures FirstPrefix(UNARY_NAMES, token + rest) == None && FirstPrefix(BINARY_NAMES, token + rest) == None
  {
    NamesAreNames();
    FirstPrefixNone(UNARY_NAMES, token, rest);
    FirstPrefixNone(BINARY_NAMES, token, rest);
  }

  lemma IdentifierIsNoNumeral(name: string)
    requires IsIdentifier(name) && Unshadowed(name)
    ensures !IsNumeral(name)
  {
    NameIsNoNumeral(name, "");
    assert name + "" == name;
  }

  /** Nothing else is read for an identifier that is not shadowed. */
  lemma IdentifierIsRead(token: string, rest: string)
    requires IsIdentifier(token) && Unshadowed(token) && Boundary(rest)
    ensures !NeverRead(token + rest)
  {
    var t := token + rest;
    assert t[0] == token[0];
    NameIsNoNumeral(token, rest);
    NoFunctionInFront(token, rest);
    NothingElseInFront(t);
  }

  /** A plain name for which nothing else is read is an identifier. */
  lemma ReadIsIdentifier(consts: Constants, token: string, rest: string)
    requires PlainNames(consts) && token != "" && token in consts.names && Boundary(rest) && !NeverRead(token + rest)
    ensures IsIdentifier(token) && Unshadowed(token)
  {
    var t, k := token + rest, |token|;
    assert t[..k] == token && t[k..] == rest && t[0] == token[0];
    forall f | f in UNARY_NAMES || f in BINARY_NAMES ensures !(f <= token) {
      assert !(f <= t);
    }
    IsReadWhole(t, k);
    NoNumeralInName(t, k);
  }

  /** Among plain names no longer one gets in the way: what follows does not matter. */
  lemma PlainToken(consts: Constants, token: string, rest: string)
    requires PlainNames(consts) && token in consts.names && Boundary(rest)
    ensures token != "" && !NeverRead(token + rest) && NoLonger(consts, token, rest) <==>
            IsIdentifier(token) && Unshadowed(token)
  {
    if IsIdentifier(token) && Unshadowed(token) {
      IdentifierIsRead(token, rest);
      PlainIsApart(consts);
      LongestConstantFinds(consts, token, rest);
      LongestExact(consts, token, rest);
    } else if token != "" && !NeverRead(token + rest) {
      ReadIsIdentifier(consts, token, rest);
    }
  }

  // ----- names that are told apart -----

  ghost predicate IsReadEverywhere(consts: Constants, name: string)
    requires name in consts.names
  {
    forall rest :: Boundary(rest) ==> ParseFactor(consts, name + rest) == Match(Fp(consts.names[name]), rest)
  }

  lemma ApartIsRead(consts: Constants, name: string)
    requires ApartNames(consts) && name in consts.names && IsIdentifier(name) && Unshadowed(name)
    ensures IsReadEverywhere(consts, name)
  {
    forall rest | Boundary(rest)
      ensures ParseFactor(consts, name + rest) == Match(Fp(consts.names[name]), rest)
    {
      IdentifierIsNoNumeral(name);
      IdentifierIsRead(name, rest);
      LongestConstantFinds(consts, name, rest);
      LongestExact(consts, name, rest);
      assert Skip(name) == name;
      TokenExact(consts, name, rest, consts.names[name]);
    }
  }

  lemma LongerIsReadInstead(consts: Constants, name: string, longer: string)
    requires name in consts.names && longer in consts.names && !Apart(name, longer)
    ensures !IsReadEverywhere(consts, name)
  {
    var rest := longer[|name|..];
    assert longer == name + rest && Skip(name) == name;
    IdentifierIsNoNumeral(name);
    assert !NoLonger(consts, name, rest);
    TokenExact(consts, name, rest, consts.names[name]);
  }

  /** Each constant that is an identifier and not shadowed is read, whatever ends it, exactly if
      the names are apart. */
  lemma ApartNamesExact(consts: Constants)
    ensures ApartNames(consts) <==>
            forall name :: name in consts.names && IsIdentifier(name) && Unshadowed(name) ==>
              IsReadEverywhere(consts, name)
  {
    if ApartNames(consts) {
      forall name | name in consts.names && IsIdentifier(name) && Unshadowed(name)
        ensures IsReadEverywhere(consts, name)
      {
        ApartIsRead(consts, name);
      }
    } else {
      var name, longer :| name in consts.names && longer in consts.names && !Apart(name, longer);
      LongerIsReadInstead(consts, name, longer);
    }
  }

  // ----- user constants -----

  /** The value that a user gives to e or pi is that of the parser. */
  ghost predicate RespectsBuiltIns(user: Constants, e: real, pi: real, name: string)
    requires name in user.names
  {
    (name == "e" ==> user.names[name] == e) && (name == "pi" ==> user.names[name] == pi)
  }

  /** The name of a constant may be the numeral of its own value. */
  predicate IsOwnNumeral(consts: Constants, name: string)
    requires name in consts.names
  {
    IsNumeral(name) && NumeralValue(consts, name) == consts.names[name]
  }

  lemma BuiltInNames()
    ensures IsIdentifier("e") && IsIdentifier("pi") && Unshadowed("e") && Unshadowed("pi")
  {
    forall f | f in UNARY_NAMES || f in BINARY_NAMES ensures !(f <= "e") && !(f <= "pi") {
      assert |f| > 2;
    }
  }

  /** The parser's own constants are never the longer ones. */
  lemma LongerIsUsers(user: Constants, e: real, pi: real, name: string, rest: string)
    requires name != "" && Boundary(rest)
    ensures NoLonger(Known(user, e, pi), name, rest) <==> NoLonger(user, name, rest)
  {
    var t := name + rest;
    assert rest != "" ==> t[|name|] == rest[0];
    assert "pi" <= t ==> |t| > 1 && t[1] == 'i';
  }

  /** The names e and pi stand for the parser's own values, whatever the user gives them,
      exactly if the text does not start with a longer name of the user. */
  lemma BuiltInWins(user: Constants, e: real, pi: real, name: string, rest: string)
    requires (name == "e" || name == "pi") && Boundary(rest)
    ensures (ParseFactor(Known(user, e, pi), name + rest) == Match(Fp(if name == "e" then e else pi), rest)) <==>
            NoLonger(user, name, rest)
  {
    BuiltInNames();
    IdentifierIsNoNumeral(name);
    IdentifierIsRead(name, rest);
    LongerIsUsers(user, e, pi, name, rest);
    assert Skip(name) == name;
    ConstantReachable(Known(user, e, pi), name, rest);
  }

  /** The name is read as the user's constant or as a numeral of the same value, or, if it starts
      with white space, as another token of the same value. */
  lemma UserConstantReachable(user: Constants, e: real, pi: real, name: string, rest: string)
    requires name in user.names && Boundary(rest)
    ensures (ParseFactor(Known(user, e, pi), name + rest) == Match(Fp(user.names[name]), rest)) <==>
            TokenValue(Known(user, e, pi), Skip(name), rest) == Some(user.names[name])
    ensures name == "" || !IsSpace(name[0]) ==>
            (TokenValue(Known(user, e, pi), Skip(name), rest) == Some(user.names[name]) <==>
             ((name != "" && !NeverRead(name + rest) && NoLonger(user, name, rest)) || IsOwnNumeral(user, name)) &&
             RespectsBuiltIns(user, e, pi, name))
  {
    TokenExact(Known(user, e, pi), name, rest, user.names[name]);
    if name == "" || !IsSpace(name[0]) {
      UserToken(user, e, pi, name, rest);
    }
  }

  lemma UserToken(user: Constants, e: real, pi: real, name: string, rest: string)
    requires name in user.names && (name == "" || !IsSpace(name[0])) && Boundary(rest)
    ensures TokenValue(Known(user, e, pi), Skip(name), rest) == Some(user.names[name]) <==>
            ((name != "" && !NeverRead(name + rest) && NoLonger(user, name, rest)) || IsOwnNumeral(user, name)) &&
            RespectsBuiltIns(user, e, pi, name)
  {
    assert Skip(name) == name;
    if IsNumeral(name) {
      UserNumeral(user, e, pi, name, rest);
    } else if name != "" {
      LongerIsUsers(user, e, pi, name, rest);
      KnownValue(user, e, pi, name);
    }
  }

  lemma UserNumeral(user: Constants, e: real, pi: real, name: string, rest: string)
    requires name in user.names && IsNumeral(name) && Boundary(rest)
    ensures TokenValue(Known(user, e, pi), name, rest) == Some(NumeralValue(user, name))
    ensures RespectsBuiltIns(user, e, pi, name) && NeverRead(name + rest)
  {
    BuiltInsAreNoNumerals();
    NumeralAppend(name, rest);
    NumeralIsRead(name + rest);
    SameNumeral(user, Known(user, e, pi), name);
  }

  lemma NumeralIsRead(t: string)
    requires NumeralLength(t) > 0
    ensures NeverRead(t)
  {
  }

  lemma SameNumeral(a: Constants, b: Constants, text: string)
    requires a.infinity == b.infinity && a.notANumber == b.notANumber
    ensures NumeralValue(a, text) == NumeralValue(b, text)
  {
  }

  lemma BuiltInsAreNoNumerals()
    ensures !IsNumeral("e") && !IsNumeral("pi")
  {
    BuiltInNames();
    IdentifierIsNoNumeral("e");
    IdentifierIsNoNumeral("pi");
  }

  /** The parser adds its own constants last. */
  lemma KnownValue(user: Constants, e: real, pi: real, name: string)
    requires name in user.names
    ensures name in Known(user, e, pi).names
    ensures Known(user, e, pi).names[name] == user.names[name] <==> RespectsBuiltIns(user, e, pi, name)
  {
    assert "e" != "pi";
  }

  /** Among plain names, the identifiers that are not shadowed are read. */
  lemma PlainConstantReachable(user: Constants, e: real, pi: real, name: string, rest: string)
    requires PlainNames(user) && name in user.names && (name == "" || !IsSpace(name[0])) && Boundary(rest)
    ensures (ParseFactor(Known(user, e, pi), name + rest) == Match(Fp(user.names[name]), rest)) <==>
            ((IsIdentifier(name) && Unshadowed(name)) || IsOwnNumeral(user, name)) &&
            RespectsBuiltIns(user, e, pi, name)
  {
    UserConstantReachable(user, e, pi, name, rest);
    PlainToken(user, name, rest);
  }

  /** For example, a constant named 2x is lost: the numeral 2 is read. */
  lemma DigitInFront(user: Constants, e: real, pi: real, name: string, rest: string)
    requires name in user.names && name == "2x" && Boundary(rest)
    ensures ParseFactor(Known(user, e, pi), name + rest) != Match(Fp(user.names[name]), rest)
  {
    DigitIsRead(name, rest);
    UserConstantReachable(user, e, pi, name, rest);
  }

  lemma DigitIsRead(name: string, rest: string)
    requires name == "2x"
    ensures !IsNumeral(name) && NeverRead(name + rest)
  {
    assert name[1..] == "x" && name[1..][1..] == "";
    assert DigitsLength(name) == 1 && NumeralLength(name) == 1;
    UnsignedBegins(name + rest);
  }

  lemma UnsignedBegins(t: string)
    requires t != "" && IsDigit(t[0])
    ensures NeverRead(t)
  {
    assert DigitsLength(t) > 0;
  }
}
