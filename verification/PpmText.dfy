/** How text is taken apart by the reader of plain PPM pictures: lines, comments, white space
    and natural numbers. */
module PpmText {
  import opened Decimal

  // ----- lines -----

  /** The length of the first line. */
  function LineLength(s: string): (n: nat)
    ensures n <= |s|
  {
    if s == "" || s[0] == '\n' then 0 else 1 + LineLength(s[1..])
  }

  /** The lines one after the other; there is no line behind the last line feed. */
  function Lines(s: string): seq<string> {
    if s == "" then []
    else
      var n := LineLength(s);
      [s[..n]] + if n == |s| then [] else Lines(s[n + 1..])
  }

  predicate OneLine(s: string) { LineLength(s) == |s| }

  lemma {:induction false} OneLineAppend(a: string, b: string)
    requires OneLine(a) && OneLine(b)
    ensures OneLine(a + b)
  {
    if a == "" {
      assert a + b == b;
    } else {
      assert (a + b)[1..] == a[1..] + b;
      OneLineAppend(a[1..], b);
    }
  }

  lemma {:induction false} DigitsOneLine(s: string)
    requires AllDigits(s)
    ensures OneLine(s)
  {
    if s != "" {
      DigitsOneLine(s[1..]);
    }
  }

  lemma {:induction false} LineLengthOf(a: string, rest: string)
    requires OneLine(a)
    ensures LineLength(a + "\n" + rest) == |a|
  {
    if a == "" {
      assert a + "\n" + rest == "\n" + rest;
    } else {
      assert (a + "\n" + rest)[1..] == a[1..] + "\n" + rest;
      LineLengthOf(a[1..], rest);
    }
  }

  lemma FirstLine(a: string, rest: string)
    requires OneLine(a)
    ensures Lines(a + "\n" + rest) == [a] + Lines(rest)
  {
    LineLengthOf(a, rest);
    var s := a + "\n" + rest;
    assert s[..|a|] == a && s[|a| + 1..] == rest;
  }

  // ----- comments and white space -----

  function Uncommented(s: string): string {
    if s == "" || s[0] == '#' then "" else [s[0]] + Uncommented(s[1..])
  }

  function SkipBack(s: string): string {
    if s != "" && IsSpace(s[|s| - 1]) then SkipBack(s[..|s| - 1]) else s
  }

  function Trim(s: string): string { SkipBack(Skip(s)) }

  /** What is left of a line. */
  function Clean(s: string): string { Trim(Uncommented(s)) }

  // ----- numbers -----

  /** Natural numbers up to the end or to the first that is none. */
  function ReadNumbers(s: string): seq<nat>
    decreases |s|
  {
    var t := Skip(s);
    var n := DigitsLength(t);
    if n == 0 then [] else [DigitsValue(t[..n])] + ReadNumbers(t[n..])
  }

  /** Skipping stops in the first part unless that is all space. */
  lemma {:induction false} SkipAppend(a: string, b: string)
    ensures Skip(a + b) == if Skip(a) == "" then Skip(b) else Skip(a) + b
  {
    if a == "" {
      assert a + b == b;
    } else {
      assert (a + b)[1..] == a[1..] + b;
      if IsSpace(a[0]) {
        SkipAppend(a[1..], b);
      }
    }
  }

  /** Text without numbers adds none to what stands before it. */
  lemma {:induction false} NothingToRead(a: string, b: string)
    requires b == "" || !IsDigit(b[0])
    requires ReadNumbers(b) == []
    ensures ReadNumbers(a + b) == ReadNumbers(a)
    decreases |a|
  {
    SkipAppend(a, b);
    var t := Skip(a);
    if t != "" {
      var n := DigitsLength(t);
      DigitsLengthAppend(t, b);
      assert (t + b)[..n] == t[..n] && (t + b)[n..] == t[n..] + b;
      if n > 0 {
        NothingToRead(t[n..], b);
      }
    }
  }

  lemma {:induction false} UncommentedSplits(s: string)
    ensures |Uncommented(s)| <= |s| && s == Uncommented(s) + s[|Uncommented(s)|..]
    ensures var b := s[|Uncommented(s)|..]; b == "" || b[0] == '#'
  {
    if s != "" && s[0] != '#' {
      UncommentedSplits(s[1..]);
      assert s[|Uncommented(s)|..] == s[1..][|Uncommented(s[1..])|..];
    }
  }

  lemma {:induction false} SkipBackSplits(s: string)
    ensures |SkipBack(s)| <= |s| && s == SkipBack(s) + s[|SkipBack(s)|..] && AllSpace(s[|SkipBack(s)|..])
  {
    if s != "" && IsSpace(s[|s| - 1]) {
      SkipBackSplits(s[..|s| - 1]);
      var n := |SkipBack(s)|;
      assert s[n..] == s[..|s| - 1][n..] + [s[|s| - 1]];
    }
  }

  /** Neither comments nor white space around a line change the numbers in it. */
  lemma CleanKeepsNumbers(s: string)
    ensures ReadNumbers(Clean(s)) == ReadNumbers(s)
  {
    UncommentedSplits(s);
    var u := Uncommented(s);
    NothingToRead(u, s[|u|..]);
    SkipTwice(u);
    var t := Skip(u);
    SkipBackSplits(t);
    var b := t[|SkipBack(t)|..];
    SkipPad(b, "");
    assert b + "" == b;
    NothingToRead(SkipBack(t), b);
  }

  /** A printed number is read back. */
  lemma NumberReadBack(n: nat, rest: string)
    requires rest == "" || !IsDigit(rest[0])
    ensures ReadNumbers(NatText(n) + rest) == [n] + ReadNumbers(rest)
  {
    var a := NatText(n);
    NatTextRoundTrip(n);
    DigitsLengthAll(a);
    DigitsLengthAppend(a, rest);
    assert (a + rest)[0] == a[0];
    assert Skip(a + rest) == a + rest;
    assert (a + rest)[..|a|] == a && (a + rest)[|a|..] == rest;
  }

  lemma {:induction false} SpaceBeforeNumbers(s: string)
    ensures ReadNumbers(" " + s) == ReadNumbers(s)
  {
    SkipPad(" ", s);
  }

  /** A line with a number in it is not empty when cleaned. */
  lemma CleanNotEmpty(s: string)
    requires ReadNumbers(s) != []
    ensures Clean(s) != ""
  {
    CleanKeepsNumbers(s);
  }
}
