/** Which texts are numerals, and what numbers they stand for. */
module FormulaNumerals {
  import opened FormulaAst
  import opened Decimal
  import opened FormulaGrammar
  import opened FormulaSyntax
  import opened FormulaMeaning
  import opened FormulaParser
  import opened FormulaLaws

  // ----- digits -----

  lemma DigitsIn(s: string)
    requires forall x :: x in s ==> '0' <= x <= '9'
    ensures AllDigits(s) && DigitsLength(s) == |s|
  {
    forall i | 0 <= i < |s| ensures IsDigit(s[i]) {
      assert s[i] in s;
    }
    DigitsLengthAll(s);
  }

  /** A further digit counts one, what is in front of it ten times as much as before. */
  lemma DigitsLaw(s: string, c: char)
    requires '0' <= c <= '9'
    ensures DigitsValue("") == 0 && DigitsValue(s + [c]) == 10 * DigitsValue(s) + (c - '0') as nat
  {
    var t := s + [c];
    assert t[..|t| - 1] == s && t[|t| - 1] == c;
  }

  /** A number's text is its decimal digits. */
  lemma NatTextLaw(n: nat, d: nat)
    requires d < 10
    ensures NatText(d) == ['0' + d as char] && (n > 0 ==> NatText(10 * n + d) == NatText(n) + NatText(d))
  {
    assert (10 * n + d) / 10 == n && (10 * n + d) % 10 == d;
  }

  function Pow10(n: nat): (p: real)
    ensures p > 0.0
  {
    if n == 0 then 1.0 else 10.0 * Pow10(n - 1)
  }

  lemma PowerLaw(n: nat)
    ensures Pow10(0) == 1.0 && Pow10(n + 1) == 10.0 * Pow10(n)
  {
  }

  lemma LastDigit(s: string, front: string) returns (last: real)
    requires s != "" && front == s[..|s| - 1]
    ensures last == (if IsDigit(s[|s| - 1]) then (s[|s| - 1] - '0') as nat else 0) as real
    ensures DigitsValue(s) as real == DigitsValue(front) as real * 10.0 + last
  {
    last := (if IsDigit(s[|s| - 1]) then (s[|s| - 1] - '0') as nat else 0) as real;
  }

  lemma FrontStep(c: real, p: real, t: real, s: real, last: real, p10: real, t10: real, s10: real)
    requires s == c * p + t && p10 == 10.0 * p && t10 == t * 10.0 + last && s10 == s * 10.0 + last
    ensures s10 == c * p10 + t10
  {
    assert c * (10.0 * p) == 10.0 * (c * p);
  }

  lemma {:induction false} DigitInFront(c: char, t: string, first: real, power: real)
    requires first == DigitsValue([c]) as real && power == Pow10(|t|)
    ensures DigitsValue([c] + t) as real == first * power + DigitsValue(t) as real
    decreases |t|
  {
    if t == "" {
      assert [c] + t == [c] && DigitsValue(t) == 0;
    } else {
      var n := |t| - 1;
      var p := Pow10(n);
      DigitInFront(c, t[..n], first, p);
      var last := LastDigit(t, t[..n]);
      assert ([c] + t)[..|t|] == [c] + t[..n] && ([c] + t)[|t|] == t[n];
      var lastToo := LastDigit([c] + t, [c] + t[..n]);
      PowerLaw(n);
      FrontStep(first, p, DigitsValue(t[..n]) as real, DigitsValue([c] + t[..n]) as real, last, power,
                DigitsValue(t) as real, DigitsValue([c] + t) as real);
    }
  }

  /** The digits behind the point. */
  lemma {:induction false} FractionMeans(f: string, digits: real, power: real)
    requires digits == DigitsValue(f) as real && power == Pow10(|f|)
    ensures FractionValue(f) == digits / power
    decreases |f|
  {
    if f == "" {
      assert power == 1.0 && digits == 0.0;
    } else {
      var t, p, c := DigitsValue(f[1..]) as real, Pow10(|f| - 1), DigitsValue(f[..1]) as real;
      FractionMeans(f[1..], t, p);
      assert f == [f[0]] + f[1..] && f[..1] == [f[0]];
      DigitInFront(f[0], f[1..], c, p);
      PowerLaw(|f| - 1);
      FractionStep(digits, c, t, p, power);
    }
  }

  lemma FractionStep(whole: real, c: real, t: real, p: real, p10: real)
    requires p > 0.0 && whole == c * p + t && p10 == 10.0 * p
    ensures (t / p + c) / 10.0 == whole / p10
  {
    var q := t / p;
    assert q * p == t;
    assert whole == (q + c) * p;
    assert (q + c) / 10.0 * (10.0 * p) == whole;
    Divided((q + c) / 10.0, p10, whole);
  }

  lemma Divided(x: real, y: real, product: real)
    requires y != 0.0 && x * y == product
    ensures x == product / y
  {
  }

  // ----- mantissas -----

  lemma PointMantissa(w: string, f: string, b: string)
    requires (forall x :: x in w ==> '0' <= x <= '9') && (forall x :: x in f ==> '0' <= x <= '9') && w + f != ""
    requires b == "" || (!IsDigit(b[0]) && b[0] != '.')
    ensures var m := w + "." + f; MantissaLength(m + b) == |m|
  {
    var m := w + "." + f;
    DigitsIn(w);
    DigitsIn(f);
    DigitsLengthAppend(w, "." + f);
    assert m == w + ("." + f) && m[|w|] == '.' && m[|w| + 1..] == f;
    assert MantissaLength(m) == |m|;
    MantissaAppend(m, b);
  }

  lemma PointValue(w: string, f: string, digits: real, power: real)
    requires (forall x :: x in w ==> '0' <= x <= '9') && (forall x :: x in f ==> '0' <= x <= '9')
    requires digits == DigitsValue(f) as real && power == Pow10(|f|)
    ensures MantissaValue(w + "." + f) == DigitsValue(w) as real + digits / power
  {
    var m := w + "." + f;
    DigitsIn(w);
    DigitsLengthAppend(w, "." + f);
    assert m == w + ("." + f) && m[..|w|] == w && m[|w| + 1..] == f;
    FractionMeans(f, digits, power);
  }

  lemma WholeMantissa(w: string, b: string)
    requires w != "" && forall x :: x in w ==> '0' <= x <= '9'
    requires b == "" || (!IsDigit(b[0]) && b[0] != '.')
    ensures MantissaLength(w + b) == |w| && MantissaValue(w) == DigitsValue(w) as real
  {
    DigitsIn(w);
    assert w[..|w|] == w;
    MantissaAppend(w, b);
  }

  // ----- exponents -----

  lemma ExponentOf(c: char, sign: string, d: string)
    requires (c == 'e' || c == 'E') && (sign == "" || sign == "+" || sign == "-")
    requires d != "" && forall x :: x in d ==> '0' <= x <= '9'
    ensures ExponentLength([c] + sign + d) == 1 + |sign| + |d|
  {
    var x := [c] + sign + d;
    DigitsIn(d);
    if sign == "" {
      assert x[1..] == d && x[1] == d[0] && IsDigit(d[0]);
    } else {
      assert x[1] == sign[0] && x[2..] == d;
    }
  }

  /** A numeral with an exponent. */
  lemma WithExponent(consts: Constants, m: string, c: char, sign: string, d: string, value: real, power: real)
    requires (c == 'e' || c == 'E') && (sign == "" || sign == "+" || sign == "-")
    requires d != "" && forall x :: x in d ==> '0' <= x <= '9'
    requires m != "" && MantissaLength(m + ([c] + sign + d)) == |m| && !IsSign(m[0])
    requires value == MantissaValue(m) && power == Pow10(DigitsValue(d))
    ensures var s := m + ([c] + sign + d);
            IsNumeral(s) && NumeralValue(consts, s) == if sign == "-" then value / power else value * power
  {
    var s := m + ([c] + sign + d);
    ExponentOf(c, sign, d);
    assert s[0] == m[0] && s[..|m|] == m && s[|m|..] == [c] + sign + d;
    assert IsNumeral(s);
    assert d[0] in d;
    ExponentValue(consts, s, m, c, sign, d, value, power);
    assert NumeralValue(consts, s) == UnsignedValue(consts, s);
  }

  lemma ExponentValue(consts: Constants, s: string, m: string, c: char, sign: string, d: string, value: real,
      power: real)
    requires s == m + ([c] + sign + d) && (sign == "" || sign == "+" || sign == "-")
    requires m != "" && MantissaLength(s) == |m| && d != "" && d[0] != '-' && d[0] != '+'
    requires value == MantissaValue(m) && power == Pow10(DigitsValue(d))
    ensures UnsignedValue(consts, s) == if sign == "-" then value / power else value * power
  {
    ExponentParts(s, m, c, sign, d);
    assert UnsignedValue(consts, s) == Scaled(value, sign == "-", DigitsValue(d));
    ScaledMeans(value, sign == "-", DigitsValue(d), power);
  }

  lemma ExponentParts(s: string, m: string, c: char, sign: string, d: string)
    requires s == m + ([c] + sign + d) && (sign == "" || sign == "+" || sign == "-")
    requires d != "" && d[0] != '-' && d[0] != '+'
    ensures var n := |m|;
            n + 1 < |s| && s[..n] == m && (IsSign(s[n + 1]) <==> sign != "") && (s[n + 1] == '-' <==> sign == "-") &&
            s[if IsSign(s[n + 1]) then n + 2 else n + 1..] == d
  {
    var n := |m|;
    if sign == "" {
      assert s[n + 1] == d[0];
    } else {
      assert s[n + 1] == sign[0];
    }
  }

  lemma {:induction false} ScaledMeans(x: real, down: bool, n: nat, power: real)
    requires power == Pow10(n)
    ensures Scaled(x, down, n) == if down then x / power else x * power
    decreases n
  {
    if n == 0 {
      assert power == 1.0;
    } else {
      var p := Pow10(n - 1);
      PowerLaw(n - 1);
      ScaledMeans(if down then x / 10.0 else x * 10.0, down, n - 1, p);
      TenTimes(x, p, power);
    }
  }

  lemma TenTimes(x: real, p: real, p10: real)
    requires p > 0.0 && p10 == 10.0 * p
    ensures (x * 10.0) * p == x * p10 && (x / 10.0) / p == x / p10
  {
    var q := (x / 10.0) / p;
    assert q * p == x / 10.0;
    assert q * p10 == x;
    Divided(q, p10, x);
  }

  lemma WithoutExponent(consts: Constants, m: string)
    requires m != "" && MantissaLength(m) == |m| && !IsSign(m[0])
    ensures IsNumeral(m) && NumeralValue(consts, m) == MantissaValue(m)
  {
    assert m[..|m|] == m && m[|m|..] == "";
  }

  // ----- what numerals stand for -----

  lemma PointNumeral(consts: Constants, w: string, f: string, digits: real, power: real)
    requires (forall x :: x in w ==> '0' <= x <= '9') && (forall x :: x in f ==> '0' <= x <= '9') && w + f != ""
    requires digits == DigitsValue(f) as real && power == Pow10(|f|)
    ensures var m := w + "." + f;
            IsNumeral(m) && NumeralValue(consts, m) == DigitsValue(w) as real + digits / power
  {
    var m := w + "." + f;
    PointMantissa(w, f, "");
    assert m + "" == m;
    PointValue(w, f, digits, power);
    PointIsNoSign(w, f);
    WithoutExponent(consts, m);
  }

  lemma PointIsNoSign(w: string, f: string)
    requires forall x :: x in w ==> '0' <= x <= '9'
    ensures !IsSign((w + "." + f)[0])
  {
    if w != "" { assert w[0] in w; }
  }

  lemma NumeralGives(lib: MathLib, consts: Constants, s: string, v: real)
    requires IsNumeral(s) && NumeralValue(consts, s) == v
    ensures Result(lib, consts, s) == Evaluation.Value(v)
  {
    NumeralResult(lib, consts, s);
  }

  /** Digits, a point and digits, of which one side may be missing. */
  lemma PointLaw(lib: MathLib, consts: Constants, w: string, f: string, digits: real, power: real, v: real)
    requires (forall x :: x in w ==> '0' <= x <= '9') && (forall x :: x in f ==> '0' <= x <= '9') && w + f != ""
    requires digits == DigitsValue(f) as real && power == Pow10(|f|) && v == DigitsValue(w) as real + digits / power
    ensures Result(lib, consts, w + "." + f) == Evaluation.Value(v)
  {
    PointNumeral(consts, w, f, digits, power);
    NumeralGives(lib, consts, w + "." + f, v);
  }

  lemma WholeNumeral(consts: Constants, w: string)
    requires w != "" && forall x :: x in w ==> '0' <= x <= '9'
    ensures IsNumeral(w) && NumeralValue(consts, w) == DigitsValue(w) as real
  {
    WholeMantissa(w, "");
    assert w + "" == w && w[0] in w;
    WithoutExponent(consts, w);
  }

  /** Whole numbers. */
  lemma WholeLaw(lib: MathLib, consts: Constants, w: string)
    requires w != "" && forall x :: x in w ==> '0' <= x <= '9'
    ensures Result(lib, consts, w) == Evaluation.Value(DigitsValue(w) as real)
  {
    WholeNumeral(consts, w);
    NumeralGives(lib, consts, w, DigitsValue(w) as real);
  }

  /** An exponent moves the point. */
  lemma ExponentLaw(lib: MathLib, consts: Constants, w: string, f: string, c: char, sign: string, d: string,
      m: real, digits: real, tenths: real, power: real)
    requires (forall x :: x in w ==> '0' <= x <= '9') && (forall x :: x in f ==> '0' <= x <= '9') && w + f != ""
    requires (c == 'e' || c == 'E') && (sign == "" || sign == "+" || sign == "-")
    requires d != "" && forall x :: x in d ==> '0' <= x <= '9'
    requires digits == DigitsValue(f) as real && tenths == Pow10(|f|) && m == DigitsValue(w) as real + digits / tenths
    requires power == Pow10(DigitsValue(d))
    ensures Result(lib, consts, w + "." + f + ([c] + sign + d)) ==
            Evaluation.Value(if sign == "-" then m / power else m * power)
  {
    PointMantissa(w, f, [c] + sign + d);
    PointValue(w, f, digits, tenths);
    PointIsNoSign(w, f);
    WithExponent(consts, w + "." + f, c, sign, d, m, power);
    NumeralGives(lib, consts, w + "." + f + ([c] + sign + d), if sign == "-" then m / power else m * power);
  }

  lemma WholeExponentLaw(lib: MathLib, consts: Constants, w: string, c: char, sign: string, d: string,
      m: real, power: real)
    requires w != "" && forall x :: x in w ==> '0' <= x <= '9'
    requires (c == 'e' || c == 'E') && (sign == "" || sign == "+" || sign == "-")
    requires d != "" && forall x :: x in d ==> '0' <= x <= '9'
    requires m == DigitsValue(w) as real && power == Pow10(DigitsValue(d))
    ensures Result(lib, consts, w + ([c] + sign + d)) ==
            Evaluation.Value(if sign == "-" then m / power else m * power)
  {
    WholeMantissa(w, [c] + sign + d);
    assert w[0] in w;
    WithExponent(consts, w, c, sign, d, m, power);
    NumeralGives(lib, consts, w + ([c] + sign + d), if sign == "-" then m / power else m * power);
  }

  /** A digit behind the point counts a tenth. */
  lemma TenthsLaw(lib: MathLib, consts: Constants, n: nat, d: nat)
    requires d < 10
    ensures Result(lib, consts, NatText(n) + "." + NatText(d)) == Evaluation.Value(n as real + d as real / 10.0)
  {
    NatTextRoundTrip(n);
    NatTextRoundTrip(d);
    DigitsOf(NatText(n));
    DigitsOf(NatText(d));
    assert |NatText(d)| == 1;
    PowerLaw(0);
    PointLaw(lib, consts, NatText(n), NatText(d), d as real, 10.0, n as real + d as real / 10.0);
  }

  lemma DigitsOf(s: string)
    requires AllDigits(s)
    ensures forall x :: x in s ==> '0' <= x <= '9'
  {
  }

  /** A sign in front of a numeral. */
  lemma SignedNumeralLaw(lib: MathLib, consts: Constants, s: string)
    requires IsNumeral(s) && s[0] != '+' && s[0] != '-'
    ensures Result(lib, consts, s) == Evaluation.Value(NumeralValue(consts, s))
    ensures Result(lib, consts, ['-'] + s) == Evaluation.Value(-NumeralValue(consts, s))
    ensures Result(lib, consts, ['+'] + s) == Evaluation.Value(NumeralValue(consts, s))
  {
    SignedNumeral(consts, '-', s);
    SignedNumeral(consts, '+', s);
    NumeralResult(lib, consts, s);
    NumeralResult(lib, consts, ['-'] + s);
    NumeralResult(lib, consts, ['+'] + s);
  }

  // ----- infinity and nan -----

  lemma SpecialNumeral(consts: Constants, s: string)
    requires s != "" && SpecialLength(s) == |s|
    ensures IsNumeral(s) && NumeralValue(consts, s) == if StartsNan(s) then consts.notANumber else consts.infinity
  {
    assert MantissaLength(s) == 0;
  }

  /** inf and infinity in upper and lower case. */
  lemma InfinityLaw(lib: MathLib, consts: Constants, s: string)
    requires |s| == 3 || |s| == 8
    requires (s[0] == 'i' || s[0] == 'I') && (s[1] == 'n' || s[1] == 'N') && (s[2] == 'f' || s[2] == 'F')
    requires |s| == 8 ==>
      (s[3] == 'i' || s[3] == 'I') && (s[4] == 'n' || s[4] == 'N') && (s[5] == 'i' || s[5] == 'I') &&
      (s[6] == 't' || s[6] == 'T') && (s[7] == 'y' || s[7] == 'Y')
    ensures Result(lib, consts, s) == Evaluation.Value(consts.infinity)
  {
    var t := s[3..];
    if |s| == 8 { assert t[0] == s[3] && t[1] == s[4] && t[2] == s[5] && t[3] == s[6] && t[4] == s[7]; }
    SpecialNumeral(consts, s);
    NumeralGives(lib, consts, s, consts.infinity);
  }

  /** nan in upper and lower case. */
  lemma NanLaw(lib: MathLib, consts: Constants, s: string)
    requires |s| == 3
    requires (s[0] == 'n' || s[0] == 'N') && (s[1] == 'a' || s[1] == 'A') && (s[2] == 'n' || s[2] == 'N')
    ensures Result(lib, consts, s) == Evaluation.Value(consts.notANumber)
  {
    SpecialNumeral(consts, s);
    NumeralGives(lib, consts, s, consts.notANumber);
  }

  lemma {:induction false} ClosesAtEnd(text: string)
    requires ')' !in text
    ensures CloseLength(text + ")") == |text| + 1
  {
    if text == "" {
      assert text + ")" == ")";
    } else {
      assert text[0] in text && (text + ")")[1..] == text[1..] + ")";
      ClosesAtEnd(text[1..]);
    }
  }

  /** A text in parentheses may follow. */
  lemma NanTextLaw(lib: MathLib, consts: Constants, nan: string, text: string)
    requires |nan| == 3 && ')' !in text
    requires (nan[0] == 'n' || nan[0] == 'N') && (nan[1] == 'a' || nan[1] == 'A') && (nan[2] == 'n' || nan[2] == 'N')
    ensures Result(lib, consts, nan + "(" + text + ")") == Evaluation.Value(consts.notANumber)
  {
    var s := nan + "(" + text + ")";
    ClosesAtEnd(text);
    assert s[4..] == text + ")" && s[3] == '(' && s[0] == nan[0] && s[1] == nan[1] && s[2] == nan[2];
    SpecialNumeral(consts, s);
    NumeralGives(lib, consts, s, consts.notANumber);
  }

  // ----- nothing else is a numeral -----

  lemma {:induction false} DigitsAre(s: string)
    ensures forall i :: 0 <= i < DigitsLength(s) ==> '0' <= s[i] <= '9'
  {
    if s != "" && IsDigit(s[0]) {
      DigitsAre(s[1..]);
      assert forall i :: 0 < i < DigitsLength(s) ==> s[i] == s[1..][i - 1];
    }
  }

  /** The parts of a mantissa. */
  lemma MantissaForm(s: string) returns (w: string, point: string, f: string)
    requires MantissaLength(s) > 0
    ensures s[..MantissaLength(s)] == w + point + f && w + f != "" && (point == "." || (point == "" && f == ""))
    ensures (forall x :: x in w ==> '0' <= x <= '9') && (forall x :: x in f ==> '0' <= x <= '9')
  {
    var n := DigitsLength(s);
    w, point, f := s[..n], "", "";
    DigitsAre(s);
    if n < |s| && s[n] == '.' {
      point, f := ".", s[n + 1..][..DigitsLength(s[n + 1..])];
      DigitsAre(s[n + 1..]);
    }
  }

  lemma ExponentForm(s: string) returns (e: string, sign: string, d: string)
    ensures s[..ExponentLength(s)] == e + sign + d && (forall x :: x in d ==> '0' <= x <= '9')
    ensures (e == "" && sign == "" && d == "") || ((e == "e" || e == "E") && d != "")
    ensures sign == "" || sign == "+" || sign == "-"
  {
    var n := ExponentLength(s);
    e, sign, d := "", "", "";
    if n > 0 {
      var k := if |s| > 1 && IsSign(s[1]) then 1 else 0;
      e, sign, d := s[..1], s[1..][..k], s[1 + k..][..n - 1 - k];
      DigitsAre(s[1 + k..]);
      assert e == [s[0]] && (k == 1 ==> sign == [s[1]]);
    }
  }

  /** A numeral that starts with a sign goes on as one without. */
  lemma SignForm(s: string)
    requires IsNumeral(s) && (s[0] == '+' || s[0] == '-')
    ensures IsNumeral(s[1..]) && s[1] != '+' && s[1] != '-'
  {
    UnsignedStarts(s[1..]);
  }

  /** One that starts with a digit or a point has digits, an optional point among or around them,
      and an optional exponent. */
  lemma DecimalForm(s: string) returns (w: string, point: string, f: string, e: string, sign: string, d: string)
    requires IsNumeral(s) && ('0' <= s[0] <= '9' || s[0] == '.')
    ensures s == w + point + f + (e + sign + d)
    ensures w + f != "" && (point == "." || (point == "" && f == ""))
    ensures (forall x :: x in w ==> '0' <= x <= '9') && (forall x :: x in f ==> '0' <= x <= '9')
    ensures (forall x :: x in d ==> '0' <= x <= '9') && (sign == "" || sign == "+" || sign == "-")
    ensures (e == "" && sign == "" && d == "") || ((e == "e" || e == "E") && d != "")
  {
    var m := MantissaLength(s);
    assert m > 0;
    w, point, f := MantissaForm(s);
    e, sign, d := ExponentForm(s[m..]);
    assert s[m..][..ExponentLength(s[m..])] == s[m..] && s == s[..m] + s[m..];
  }

  /** Any other one is inf, infinity, nan, or nan with a text in parentheses. */
  lemma SpecialForm(s: string)
    requires IsNumeral(s) && !('0' <= s[0] <= '9') && s[0] != '.' && s[0] != '+' && s[0] != '-'
    ensures |s| >= 3
    ensures s[0] == 'i' || s[0] == 'I' ==>
      (|s| == 3 || |s| == 8) && (s[1] == 'n' || s[1] == 'N') && (s[2] == 'f' || s[2] == 'F')
    ensures |s| == 8 && (s[0] == 'i' || s[0] == 'I') ==>
      (s[3] == 'i' || s[3] == 'I') && (s[4] == 'n' || s[4] == 'N') && (s[5] == 'i' || s[5] == 'I') &&
      (s[6] == 't' || s[6] == 'T') && (s[7] == 'y' || s[7] == 'Y')
    ensures !(s[0] == 'i' || s[0] == 'I') ==>
      (s[0] == 'n' || s[0] == 'N') && (s[1] == 'a' || s[1] == 'A') && (s[2] == 'n' || s[2] == 'N') &&
      (|s| == 3 || (s[3] == '(' && s[|s| - 1] == ')'))
  {
    assert SpecialLength(s) == |s|;
    if StartsNan(s) {
      if |s| > 3 { SpecialEnds(s); }
    } else if |s| == 8 {
      var t := s[3..];
      assert t[0] == s[3] && t[1] == s[4] && t[2] == s[5] && t[3] == s[6] && t[4] == s[7];
    }
  }

  lemma SpecialEnds(t: string)
    requires SpecialLength(t) == |t| > 3 && StartsNan(t)
    ensures t[3] == '(' && t[|t| - 1] == ')'
  {
    CloseEnds(t[4..]);
  }

  lemma {:induction false} CloseEnds(s: string)
    requires CloseLength(s) == |s| > 0
    ensures s[|s| - 1] == ')'
  {
    if s[0] != ')' { CloseEnds(s[1..]); }
  }
}
