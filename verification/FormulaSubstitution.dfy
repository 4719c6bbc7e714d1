/** Textual replacement of place holders, and why it means the same as binding variables. */
module FormulaSubstitution {
  import opened FormulaAst
  import opened Decimal
  import opened FormulaGrammar
  import opened FormulaSyntax

  /** Replaces every occurrence of `pattern`, from left to right, without looking at what was
      pasted in. */
  function ReplaceAll(text: string, pattern: string, value: string): string
    requires pattern != ""
  {
    if text == "" then ""
    else if pattern <= text then value + ReplaceAll(text[|pattern|..], pattern, value)
    else [text[0]] + ReplaceAll(text[1..], pattern, value)
  }

  /** A place holder's name and the text that is to replace it. */
  datatype Binding = Binding(name: string, text: string)

  function PasteAll(text: string, bindings: seq<Binding>): string
    decreases |bindings|
  {
    if bindings == [] then text
    else PasteAll(ReplaceAll(text, HolderText(bindings[0].name), bindings[0].text), bindings[1..])
  }

  /** What replacing `key` by `value` does to the texts pasted so far. */
  function PasteOne(sub: Pasted, key: string, value: string): Pasted {
    if key in sub then sub else sub[key := value]
  }

  /** The first binding of a name is the one that takes effect: afterwards there is nothing
      left to replace. */
  function FirstWins(sub: Pasted, bindings: seq<Binding>): Pasted
    decreases |bindings|
  {
    if bindings == [] then sub else FirstWins(PasteOne(sub, bindings[0].name, bindings[0].text), bindings[1..])
  }

  predicate Braceless(s: string) { '{' !in s && '}' !in s }

  /** A numeral without braces; in nan(...) there might be some. */
  predicate IsPlainNumeral(s: string) { IsNumeral(s) && '{' !in s }

  ghost predicate ProperBindings(bindings: seq<Binding>) {
    forall i :: 0 <= i < |bindings| ==> Braceless(bindings[i].name) && IsPlainNumeral(bindings[i].text)
  }

  ghost predicate ProperTexts(sub: Pasted) { forall k :: k in sub ==> IsPlainNumeral(sub[k]) }

  // ----- templates: no braces but those of place holders -----

  predicate PlainSum(e: Sum) { PlainProduct(e.first) && PlainSumTail(e.rest) }

  predicate PlainSumTail(e: SumTail) { e.NextTerm? ==> PlainProduct(e.term) && PlainSumTail(e.tail) }

  predicate PlainProduct(e: Product) { PlainFactor(e.first) && PlainProductTail(e.rest) }

  predicate PlainProductTail(e: ProductTail) { e.NextFactor? ==> PlainFactor(e.factor) && PlainProductTail(e.tail) }

  predicate PlainFactor(e: Factor) {
    match e
    case Number(_, text) => '{' !in text
    case Group(_, body, _) => PlainSum(body)
    case SignOf(_, _, factor) => PlainFactor(factor)
    case Call1(_, _, _, arg, _) => PlainSum(arg)
    case Call2(_, _, _, arg1, _, arg2, _) => PlainSum(arg1) && PlainSum(arg2)
    case _ => true
  }

  // ----- replacement in plain text and at place holders -----

  lemma {:induction false} ReplaceSkips(t: string, rest: string, key: string, value: string)
    requires '{' !in t
    ensures ReplaceAll(t + rest, HolderText(key), value) == t + ReplaceAll(rest, HolderText(key), value)
  {
    if t == "" {
      assert t + rest == rest;
      assert t + ReplaceAll(rest, HolderText(key), value) == ReplaceAll(rest, HolderText(key), value);
    } else {
      var s := t + rest;
      assert HolderText(key)[0] == '{' && s[0] == t[0];
      assert t[0] in t;
      assert s[1..] == t[1..] + rest;
      ReplaceSkips(t[1..], rest, key, value);
    }
  }

  lemma OtherHolderDiffers(key: string, other: string, rest: string)
    requires Braceless(key) && Braceless(other) && key != other
    ensures !(HolderText(key) <= HolderText(other) + rest)
  {
    var p, s := HolderText(key), HolderText(other) + rest;
    var n := if |key| < |other| then |key| else |other|;
    if key[..n] == other[..n] {
      assert key[..n] == key ==> p[2 + n] == '}';
      assert other[..n] == other ==> s[2 + n] == '}';
      assert |key| > n ==> p[2 + n] == key[n] && key[n] in key;
      assert |other| > n ==> s[2 + n] == other[n] && other[n] in other;
      assert p[2 + n] != s[2 + n];
    } else {
      var i :| 0 <= i < n && key[i] != other[i];
      assert p[2 + i] == key[i] && s[2 + i] == other[i];
    }
  }

  lemma ReplaceAtHolder(other: string, rest: string, key: string, value: string)
    requires Braceless(key) && Braceless(other)
    ensures ReplaceAll(HolderText(other) + rest, HolderText(key), value) ==
            (if other == key then value else HolderText(other)) + ReplaceAll(rest, HolderText(key), value)
  {
    var p, s := HolderText(key), HolderText(other) + rest;
    if other == key {
      assert s[..|p|] == p && s[|p|..] == rest;
    } else {
      OtherHolderDiffers(key, other, rest);
      var inner := other + "}}";
      assert s[1..] == "{" + (inner + rest);
      assert s[1..][1..] == inner + rest;
      assert s[1..][1] == inner[0];
      assert inner[0] != '{' by { assert other != "" ==> other[0] in other; }
      assert p[1] == '{';
      ReplaceSkips(inner, rest, key, value);
      assert HolderText(other) == ['{'] + (['{'] + inner);
      var r := ReplaceAll(rest, p, value);
      assert ['{'] + (['{'] + (inner + r)) == HolderText(other) + r;
    }
  }

  // ----- replacement in a printed formula -----

  lemma {:induction false} ReplaceInSum(consts: Constants, e: Sum, sub: Pasted, rest: string, key: string,
      value: string)
    requires ValidSum(consts, e) && PlainSum(e) && ProperTexts(sub) && Braceless(key)
    ensures ReplaceAll(PrintSum(e, sub, rest), HolderText(key), value) ==
            PrintSum(e, PasteOne(sub, key, value), ReplaceAll(rest, HolderText(key), value))
    decreases e, 1
  {
    ReplaceInProduct(consts, e.first, sub, PrintSumTail(e.rest, sub, rest), key, value);
    ReplaceInSumTail(consts, e.rest, sub, rest, key, value);
  }

  lemma {:induction false} ReplaceInSumTail(consts: Constants, e: SumTail, sub: Pasted, rest: string, key: string,
      value: string)
    requires ValidSumTail(consts, e) && PlainSumTail(e) && ProperTexts(sub) && Braceless(key)
    ensures ReplaceAll(PrintSumTail(e, sub, rest), HolderText(key), value) ==
            PrintSumTail(e, PasteOne(sub, key, value), ReplaceAll(rest, HolderText(key), value))
    decreases e, 1
  {
    match e
    case NoMoreTerms =>
    case NextTerm(pad, op, term, tail) =>
      var after := PrintSumTail(tail, sub, rest);
      var text := PrintProduct(term, sub, after);
      ReplaceSkips(pad, [op] + text, key, value);
      ReplaceSkips([op], text, key, value);
      ReplaceInProduct(consts, term, sub, after, key, value);
      ReplaceInSumTail(consts, tail, sub, rest, key, value);
  }

  lemma {:induction false} ReplaceInProduct(consts: Constants, e: Product, sub: Pasted, rest: string, key: string,
      value: string)
    requires ValidProduct(consts, e) && PlainProduct(e) && ProperTexts(sub) && Braceless(key)
    ensures ReplaceAll(PrintProduct(e, sub, rest), HolderText(key), value) ==
            PrintProduct(e, PasteOne(sub, key, value), ReplaceAll(rest, HolderText(key), value))
    decreases e, 1
  {
    ReplaceInFactor(consts, e.first, sub, PrintProductTail(e.rest, sub, rest), key, value);
    ReplaceInProductTail(consts, e.rest, sub, rest, key, value);
  }

  lemma {:induction false} ReplaceInProductTail(consts: Constants, e: ProductTail, sub: Pasted, rest: string,
      key: string, value: string)
    requires ValidProductTail(consts, e) && PlainProductTail(e) && ProperTexts(sub) && Braceless(key)
    ensures ReplaceAll(PrintProductTail(e, sub, rest), HolderText(key), value) ==
            PrintProductTail(e, PasteOne(sub, key, value), ReplaceAll(rest, HolderText(key), value))
    decreases e, 1
  {
    match e
    case NoMoreFactors =>
    case NextFactor(pad, op, factor, tail) =>
      var after := PrintProductTail(tail, sub, rest);
      var text := PrintFactor(factor, sub, after);
      ReplaceSkips(pad, [op] + text, key, value);
      ReplaceSkips([op], text, key, value);
      ReplaceInFactor(consts, factor, sub, after, key, value);
      ReplaceInProductTail(consts, tail, sub, rest, key, value);
  }

  lemma {:induction false} ReplaceInFactor(consts: Constants, e: Factor, sub: Pasted, rest: string, key: string,
      value: string)
    requires ValidFactor(consts, e) && PlainFactor(e) && ProperTexts(sub) && Braceless(key)
    ensures ReplaceAll(PrintFactor(e, sub, rest), HolderText(key), value) ==
            PrintFactor(e, PasteOne(sub, key, value), ReplaceAll(rest, HolderText(key), value))
    decreases e, 1
  {
    var after := ReplaceAll(rest, HolderText(key), value);
    match e
    case Number(pad, text) =>
      ReplaceSkips(pad, text + rest, key, value);
      ReplaceSkips(text, rest, key, value);
    case Group(pad, body, close) =>
      ReplaceSkips(pad, "(" + PrintSum(body, sub, close + (")" + rest)), key, value);
      ReplaceSkips("(", PrintSum(body, sub, close + (")" + rest)), key, value);
      ReplaceInClosed(consts, body, sub, close, ")", rest, key, value);
    case SignOf(pad, sign, factor) =>
      var text := PrintFactor(factor, sub, rest);
      ReplaceSkips(pad, [sign] + text, key, value);
      ReplaceSkips([sign], text, key, value);
      ReplaceInFactor(consts, factor, sub, rest, key, value);
    case Call1(pad, name, open, arg, close) =>
      ReplaceInCall(pad, name, open, PrintSum(arg, sub, close + (")" + rest)), key, value);
      ReplaceInClosed(consts, arg, sub, close, ")", rest, key, value);
    case Call2(pad, name, open, arg1, comma, arg2, close) =>
      var second := PrintSum(arg2, sub, close + (")" + rest));
      ReplaceInCall(pad, name, open, PrintSum(arg1, sub, comma + ("," + second)), key, value);
      ReplaceInClosed(consts, arg1, sub, comma, ",", second, key, value);
      ReplaceInClosed(consts, arg2, sub, close, ")", rest, key, value);
    case Constant(pad, name) =>
      ReplaceSkips(pad, name + rest, key, value);
      ReplaceSkips(name, rest, key, value);
    case PlaceHolder(pad, other) =>
      if other in sub {
        ReplaceSkips(pad, sub[other] + rest, key, value);
        ReplaceSkips(sub[other], rest, key, value);
      } else {
        ReplaceSkips(pad, HolderText(other) + rest, key, value);
        ReplaceAtHolder(other, rest, key, value);
      }
  }

  /** Inside a bracket: `rest` comes after white space and a closing token. */
  lemma {:induction false} ReplaceInClosed(consts: Constants, e: Sum, sub: Pasted, close: string, token: string,
      rest: string,
                                           key: string, value: string)
    requires ValidSum(consts, e) && PlainSum(e) && ProperTexts(sub) && Braceless(key) && AllSpace(close) &&
      '{' !in token
    ensures ReplaceAll(PrintSum(e, sub, close + (token + rest)), HolderText(key), value) ==
            PrintSum(e, PasteOne(sub, key, value), close + (token + ReplaceAll(rest, HolderText(key), value)))
    decreases e, 2
  {
    ReplaceInSum(consts, e, sub, close + (token + rest), key, value);
    ReplaceSkips(close, token + rest, key, value);
    ReplaceSkips(token, rest, key, value);
  }

  lemma ReplaceInCall(pad: string, name: string, open: string, body: string, key: string, value: string)
    requires AllSpace(pad) && AllSpace(open) && (name in UNARY_NAMES || name in BINARY_NAMES)
    ensures ReplaceAll(pad + (name + (open + ("(" + body))), HolderText(key), value) ==
            pad + (name + (open + ("(" + ReplaceAll(body, HolderText(key), value))))
  {
    assert '{' !in name by {
      NamesAreNames();
      var names := if name in UNARY_NAMES then UNARY_NAMES else BINARY_NAMES;
      var i :| 0 <= i < |names| && names[i] == name;
    }
    ReplaceSkips(pad, name + (open + ("(" + body)), key, value);
    ReplaceSkips(name, open + ("(" + body), key, value);
    ReplaceSkips(open, "(" + body, key, value);
    ReplaceSkips("(", body, key, value);
  }

  /** Replacing one key after the other pastes every key's first text, and nothing else. */
  lemma {:induction false} PasteAllPrints(consts: Constants, e: Sum, sub: Pasted, trailing: string,
      bindings: seq<Binding>)
    requires ValidSum(consts, e) && PlainSum(e) && ProperTexts(sub) && ProperBindings(bindings) && AllSpace(trailing)
    ensures PasteAll(PrintSum(e, sub, trailing), bindings) == PrintSum(e, FirstWins(sub, bindings), trailing)
    decreases |bindings|
  {
    if bindings != [] {
      var b := bindings[0];
      ReplaceInSum(consts, e, sub, trailing, b.name, b.text);
      ReplaceSkips(trailing, "", b.name, b.text);
      assert trailing + "" == trailing;
      PasteAllPrints(consts, e, PasteOne(sub, b.name, b.text), trailing, bindings[1..]);
    }
  }
}
