/** What writing and reading plain PPM pictures do for each other. */
module CanvasRoundTrip {
  import opened Canvas
  import opened CanvasPpm
  import opened Decimal
  import opened PpmText
  import opened Wrappers

  // ----- comments and empty lines -----

  lemma {:induction false} MeaningfulAppend(a: seq<string>, b: seq<string>)
    ensures Meaningful(a + b) == Meaningful(a) + Meaningful(b)
  {
    if a == [] {
      assert a + b == b;
    } else {
      assert (a + b)[1..] == a[1..] + b;
      MeaningfulAppend(a[1..], b);
    }
  }

  /** Texts with the same meaningful lines are loaded alike, whatever comments, empty lines and
      outer white space they differ in. */
  lemma CommentsInert(max: nat, p: Picture, a: string, b: string)
    requires max > 0 && Meaningful(Lines(a)) == Meaningful(Lines(b))
    ensures Load(max, p, a) == Load(max, p, b)
  {
    OnlyMeaningfulLines(max, p, Lines(a));
    OnlyMeaningfulLines(max, p, Lines(b));
  }

  ghost predicate WholeLines(s: string) { s == "" || s[|s| - 1] == '\n' }

  lemma {:induction false} LineEnds(a: string) returns (first: string, rest: string)
    requires a != "" && WholeLines(a)
    ensures OneLine(first) && WholeLines(rest) && a == first + "\n" + rest
  {
    if a[0] == '\n' {
      first, rest := "", a[1..];
    } else {
      var later;
      later, rest := LineEnds(a[1..]);
      first := [a[0]] + later;
      assert first[1..] == later;
    }
  }

  lemma LinesAssociate(a: seq<string>, b: seq<string>, c: seq<string>)
    ensures a + (b + c) == (a + b) + c
  {
  }

  lemma {:induction false} LinesAppend(a: string, b: string)
    requires WholeLines(a)
    ensures Lines(a + b) == Lines(a) + Lines(b)
    decreases |a|
  {
    if a == "" {
      assert a + b == b;
    } else {
      var first, rest := LineEnds(a);
      FirstLine(first, rest);
      FirstLine(first, rest + b);
      TextAssociates(first + "\n", rest, b);
      LinesAppend(rest, b);
      LinesAssociate([first], Lines(rest), Lines(b));
    }
  }

  /** The meaningful lines around a line in the middle. */
  lemma MeaningfulAround(before: string, line: string, after: string)
    requires WholeLines(before) && OneLine(line)
    ensures Meaningful(Lines(before + (line + "\n" + after))) ==
            Meaningful(Lines(before)) + ((if Clean(line) == "" then [] else [Clean(line)]) + Meaningful(Lines(after)))
  {
    LinesAppend(before, line + "\n" + after);
    FirstLine(line, after);
    MeaningfulAppend(Lines(before), Lines(line + "\n" + after));
    assert ([line] + Lines(after))[1..] == Lines(after);
  }

  /** Inserting a comment or an empty line between lines changes nothing. */
  lemma InsertedLine(max: nat, p: Picture, before: string, line: string, after: string)
    requires max > 0 && WholeLines(before) && OneLine(line) && Clean(line) == ""
    ensures Load(max, p, before + (line + "\n" + after)) == Load(max, p, before + after)
  {
    MeaningfulAround(before, line, after);
    LinesAppend(before, after);
    MeaningfulAppend(Lines(before), Lines(after));
    assert [] + Meaningful(Lines(after)) == Meaningful(Lines(after));
    CommentsInert(max, p, before + (line + "\n" + after), before + after);
  }

  lemma {:induction false} UncommentedComment(line: string, comment: string)
    ensures Uncommented(line + "#" + comment) == Uncommented(line)
  {
    if line == "" {
      assert line + "#" + comment == "#" + comment;
    } else {
      assert (line + "#" + comment)[1..] == line[1..] + "#" + comment;
      UncommentedComment(line[1..], comment);
    }
  }

  /** Nor does a comment at the end of a line. */
  lemma AppendedComment(max: nat, p: Picture, before: string, line: string, comment: string, after: string)
    requires max > 0 && WholeLines(before) && OneLine(line) && OneLine(comment)
    ensures Load(max, p, before + (line + "#" + comment + "\n" + after)) == Load(max, p, before + (line + "\n" + after))
  {
    assert "#"[1..] == "";
    OneLineAppend(line, "#");
    OneLineAppend(line + "#", comment);
    UncommentedComment(line, comment);
    MeaningfulAround(before, line + "#" + comment, after);
    MeaningfulAround(before, line, after);
    CommentsInert(max, p, before + (line + "#" + comment + "\n" + after), before + (line + "\n" + after));
  }

  // ----- the lines of a printed picture -----

  lemma NumberIsOneLine(n: nat)
    ensures OneLine(NatText(n))
  {
    NatTextRoundTrip(n);
    DigitsOneLine(NatText(n));
  }

  lemma NumberInLine(n: nat, rest: string)
    requires OneLine(rest)
    ensures OneLine(NatText(n) + " " + rest)
  {
    NumberIsOneLine(n);
    assert " "[1..] == "";
    OneLineAppend(NatText(n), " ");
    OneLineAppend(NatText(n) + " ", rest);
  }

  lemma PixelIsOneLine(c: Triple, rest: string)
    requires OneLine(rest)
    ensures OneLine(PixelText(c) + rest)
  {
    NumberInLine(c.b, rest);
    NumberInLine(c.g, NatText(c.b) + " " + rest);
    NumberInLine(c.r, NatText(c.g) + " " + (NatText(c.b) + " " + rest));
    PixelSplits(NatText(c.r), NatText(c.g), NatText(c.b), rest);
  }

  lemma PixelSplits(r: string, g: string, b: string, rest: string)
    ensures r + " " + (g + " " + (b + " ")) + rest == r + " " + (g + " " + (b + " " + rest))
  {
  }

  lemma {:induction false} RowIsOneLine(row: seq<Triple>)
    ensures OneLine(RowText(row))
  {
    if row != [] {
      RowIsOneLine(row[1..]);
      PixelIsOneLine(row[0], RowText(row[1..]));
    }
  }

  function RowLines(rows: seq<seq<Triple>>): seq<string> {
    if rows == [] then [] else [RowText(rows[0])] + RowLines(rows[1..])
  }

  lemma {:induction false} LinesOfRows(rows: seq<seq<Triple>>)
    ensures Lines(RowsText(rows)) == RowLines(rows)
  {
    if rows != [] {
      RowIsOneLine(rows[0]);
      FirstLine(RowText(rows[0]), RowsText(rows[1..]));
      LinesOfRows(rows[1..]);
    }
  }

  lemma HeaderSplits(a: string, b: string, c: string, rest: string)
    ensures a + "\n" + (b + "\n" + (c + "\n")) + rest == a + "\n" + (b + "\n" + (c + "\n" + rest))
  {
  }

  lemma HeaderLines(a: string, b: string, c: string, rest: string)
    requires OneLine(a) && OneLine(b) && OneLine(c)
    ensures Lines(a + "\n" + (b + "\n" + (c + "\n")) + rest) == [a, b, c] + Lines(rest)
  {
    HeaderSplits(a, b, c, rest);
    FirstLine(a, b + "\n" + (c + "\n" + rest));
    FirstLine(b, c + "\n" + rest);
    FirstLine(c, rest);
  }

  lemma LinesOfPpm(max: nat, p: Picture)
    requires Paintable(p)
    ensures Lines(Ppm(max, p))
         == ["P3", NatText(p.xDim) + " " + NatText(p.yDim), NatText(max)] + RowLines(RowsOf(max, p))
  {
    NumberIsOneLine(p.yDim);
    NumberInLine(p.xDim, NatText(p.yDim));
    NumberIsOneLine(max);
    HeaderIsOneLine();
    HeaderLines("P3", NatText(p.xDim) + " " + NatText(p.yDim), NatText(max), RowsText(RowsOf(max, p)));
    LinesOfRows(RowsOf(max, p));
  }

  lemma HeaderIsOneLine()
    ensures OneLine("P3")
  {
    assert "P3"[1..] == "3" && "3"[1..] == "";
    assert LineLength("3") == 1;
  }

  // ----- the numbers of a printed picture -----

  function RowNumbers(row: seq<Triple>): seq<nat> {
    if row == [] then [] else [row[0].r, row[0].g, row[0].b] + RowNumbers(row[1..])
  }

  lemma BlankBehind(n: nat, rest: string)
    ensures ReadNumbers(NatText(n) + " " + rest) == [n] + ReadNumbers(rest)
  {
    assert NatText(n) + " " + rest == NatText(n) + (" " + rest);
    NumberReadBack(n, " " + rest);
    SpaceBeforeNumbers(rest);
  }

  lemma PixelReadBack(c: Triple, rest: string)
    ensures ReadNumbers(PixelText(c) + rest) == [c.r, c.g, c.b] + ReadNumbers(rest)
  {
    var text3 := NatText(c.b) + " " + rest;
    var text2 := NatText(c.g) + " " + text3;
    PixelSplits(NatText(c.r), NatText(c.g), NatText(c.b), rest);
    BlankBehind(c.b, rest);
    BlankBehind(c.g, text3);
    BlankBehind(c.r, text2);
  }

  lemma {:induction false} RowReadBack(row: seq<Triple>)
    ensures ReadNumbers(RowText(row)) == RowNumbers(row)
  {
    if row != [] {
      RowReadBack(row[1..]);
      PixelReadBack(row[0], RowText(row[1..]));
    }
  }

  function NumbersOfRows(rows: seq<seq<Triple>>): seq<nat> {
    if rows == [] then [] else RowNumbers(rows[0]) + NumbersOfRows(rows[1..])
  }

  lemma FirstNumbers(line: string, rest: seq<string>)
    requires ReadNumbers(line) != []
    ensures AllNumbers([line] + rest) == ReadNumbers(line) + AllNumbers(rest)
  {
    CleanNotEmpty(line);
    CleanKeepsNumbers(line);
    assert ([line] + rest)[1..] == rest;
  }

  lemma {:induction false} RowsReadBack(rows: seq<seq<Triple>>)
    requires forall j :: 0 <= j < |rows| ==> rows[j] != []
    ensures AllNumbers(RowLines(rows)) == NumbersOfRows(rows)
  {
    if rows != [] {
      RowReadBack(rows[0]);
      FirstNumbers(RowText(rows[0]), RowLines(rows[1..]));
      RowsReadBack(rows[1..]);
    }
  }

  // ----- where a component ends up -----

  ghost predicate TripleAt(v: seq<nat>, at: nat, c: Triple) {
    at + 3 <= |v| && v[at] == c.r && v[at + 1] == c.g && v[at + 2] == c.b
  }

  lemma {:induction false} RowNumbersLength(row: seq<Triple>)
    ensures |RowNumbers(row)| == 3 * |row|
  {
    if row != [] {
      RowNumbersLength(row[1..]);
    }
  }

  lemma {:induction false} RowNumbersAt(row: seq<Triple>, i: nat)
    requires i < |row|
    ensures TripleAt(RowNumbers(row), 3 * i, row[i])
  {
    if i > 0 {
      RowNumbersAt(row[1..], i - 1);
    }
  }

  lemma RowBelow(x: nat, i: nat, j: nat)
    requires j > 0
    ensures 3 * (j * x + i) == 3 * x + 3 * ((j - 1) * x + i)
  {
  }

  lemma Taller(x: nat, y: nat)
    requires y > 0
    ensures 3 * x * y == 3 * x + 3 * x * (y - 1)
  {
  }

  /** Pixel `i` of line `j` comes after those of the lines above and those to the left. */
  lemma {:induction false} NumbersAt(rows: seq<seq<Triple>>, x: nat, j: nat, i: nat, at: nat)
    requires forall k :: 0 <= k < |rows| ==> |rows[k]| == x
    requires j < |rows| && i < x && at == 3 * (j * x + i)
    ensures TripleAt(NumbersOfRows(rows), at, rows[j][i])
    decreases j
  {
    RowNumbersLength(rows[0]);
    if j == 0 {
      RowNumbersAt(rows[0], i);
    } else {
      RowBelow(x, i, j);
      NumbersAt(rows[1..], x, j - 1, i, at - 3 * x);
    }
  }

  lemma {:induction false} NumbersLength(rows: seq<seq<Triple>>, x: nat, y: nat)
    requires y == |rows| && forall k :: 0 <= k < |rows| ==> |rows[k]| == x
    ensures |NumbersOfRows(rows)| == 3 * x * y
  {
    if rows != [] {
      RowNumbersLength(rows[0]);
      NumbersLength(rows[1..], x, y - 1);
      Taller(x, y);
    }
  }

  // ----- the round trip -----

  function QuantisedComponent(max: nat, x: real): real
    requires max > 0 && x >= 0.0
  {
    Component(max, Level(max, x))
  }

  lemma LessByFactor(d: real, m: real, n: nat, x: real)
    requires m > 0.0 && d == x * m && n as real <= d < n as real + 1.0
    ensures n as real / m <= x < n as real / m + 1.0 / m
  {
    var q := n as real / m;
    assert q * m == n as real;
    assert (q + 1.0 / m) * m == n as real + 1.0;
  }

  /** No component loses as much as one step of the color scale. */
  lemma QuantisedNear(max: nat, x: real)
    requires max > 0 && x >= 0.0
    ensures QuantisedComponent(max, x) <= x < QuantisedComponent(max, x) + 1.0 / max as real
  {
    LessByFactor(x * max as real, max as real, Level(max, x), x);
  }

  function QuantisedColor(max: nat, c: Rgb): Rgb
    requires max > 0 && c.r >= 0.0 && c.g >= 0.0 && c.b >= 0.0
  {
    Rgb(QuantisedComponent(max, c.r), QuantisedComponent(max, c.g), QuantisedComponent(max, c.b))
  }

  /** The picture with every component cut down to a multiple of 1 / max. */
  ghost function Quantised(max: nat, p: Picture): Picture
    requires max > 0 && Paintable(p)
  {
    Picture(p.xDim, p.yDim,
            seq(p.xDim, i requires 0 <= i < p.xDim =>
                          seq(p.yDim, j requires 0 <= j < p.yDim => QuantisedColor(max, p.data[i][j]))))
  }

  lemma PaintedIsQuantised(max: nat, p: Picture)
    requires max > 0 && Paintable(p)
    ensures var v := NumbersOfRows(RowsOf(max, p));
            |v| == 3 * p.xDim * p.yDim && Painted(max, p.xDim, p.yDim, v) == Quantised(max, p)
  {
    var rows := RowsOf(max, p);
    var v := NumbersOfRows(rows);
    NumbersLength(rows, p.xDim, p.yDim);
    var a, b := Painted(max, p.xDim, p.yDim, v), Quantised(max, p);
    forall i | 0 <= i < p.xDim ensures a.data[i] == b.data[i] {
      forall j | 0 <= j < p.yDim ensures a.data[i][j] == b.data[i][j] {
        NumbersAt(rows, p.xDim, j, i, 3 * (j * p.xDim + i));
        assert rows[j][i] == Levels(max, p.data[i][j]);
      }
    }
  }

  lemma HeaderClean()
    ensures Clean("P3") == "P3"
  {
    assert Uncommented("") == "";
    assert "P3"[1..] == "3" && "3"[1..] == "";
    assert Uncommented("3") == "3";
    assert Uncommented("P3") == "P3";
  }

  lemma DimensionsReadBack(x: nat, y: nat)
    ensures ReadNumbers(NatText(x) + " " + NatText(y)) == [x, y]
    ensures ReadNumbers(NatText(y)) == [y]
  {
    assert ReadNumbers("") == [];
    NumberReadBack(y, "");
    assert NatText(y) + "" == NatText(y);
    BlankBehind(x, NatText(y));
  }

  lemma LoadHeader(max: nat, before: Picture, d: string, m: string, rows: seq<string>, x: nat, y: nat)
    requires max > 0 && ReadNumbers(d) == [x, y] && ReadNumbers(m) == [max]
    ensures LoadLines(max, before, ["P3", d, m] + rows, AtHeader) ==
            if x > 0 && y > 0 then Fill(max, Black(x, y), AllNumbers(rows)) else Loading(before, Some(ZeroDimension))
  {
    HeaderClean();
    CleanNotEmpty(d);
    CleanNotEmpty(m);
    assert (["P3", d, m] + rows)[1..] == [d, m] + rows;
    assert ([d, m] + rows)[1..] == [m] + rows;
    assert ([m] + rows)[1..] == rows;
    var black := Black(x, y);
    assert LoadLines(max, black, [m] + rows, AtDepth) == Fill(max, black, AllNumbers(rows));
  }

  /** Header and dimensions of what was written. */
  lemma LoadPpm(max: nat, p: Picture, before: Picture)
    requires max > 0 && Paintable(p)
    ensures Load(max, before, Ppm(max, p)) ==
            if p.xDim > 0 && p.yDim > 0 then Fill(max, Black(p.xDim, p.yDim), AllNumbers(RowLines(RowsOf(max, p))))
            else Loading(before, Some(ZeroDimension))
  {
    var d, rows := NatText(p.xDim) + " " + NatText(p.yDim), RowLines(RowsOf(max, p));
    LinesOfPpm(max, p);
    DimensionsReadBack(p.xDim, p.yDim);
    DimensionsReadBack(p.xDim, max);
    LoadHeader(max, before, d, NatText(max), rows, p.xDim, p.yDim);
  }

  /** The rows that were written fill the canvas. */
  lemma RowsFill(max: nat, p: Picture)
    requires max > 0 && Paintable(p) && p.xDim > 0 && p.yDim > 0
    ensures Fill(max, Black(p.xDim, p.yDim), AllNumbers(RowLines(RowsOf(max, p)))) ==
            Loading(Quantised(max, p), None)
  {
    RowsReadBack(RowsOf(max, p));
    PaintedIsQuantised(max, p);
  }

  /** A picture is loaded from what was written, up to the resolution of colors, exactly when
      neither dimension is 0; otherwise loading fails and leaves the canvas alone. */
  lemma RoundTrip(max: nat, p: Picture, before: Picture)
    requires max > 0 && Paintable(p)
    ensures Load(max, before, Ppm(max, p)) ==
            if p.xDim > 0 && p.yDim > 0 then Loading(Quantised(max, p), None) else Loading(before, Some(ZeroDimension))
  {
    LoadPpm(max, p, before);
    if p.xDim > 0 && p.yDim > 0 {
      RowsFill(max, p);
    }
  }

  // ----- the second round trip -----

  lemma ComponentLevel(max: nat, n: nat)
    requires max > 0
    ensures Component(max, n) >= 0.0 && Level(max, Component(max, n)) == n
  {
    assert Component(max, n) * max as real == n as real;
  }

  lemma QuantisedPaintable(max: nat, p: Picture)
    requires max > 0 && Paintable(p)
    ensures Paintable(Quantised(max, p))
  {
    forall i, j | 0 <= i < p.xDim && 0 <= j < p.yDim
      ensures var c := Quantised(max, p).data[i][j]; c.r >= 0.0 && c.g >= 0.0 && c.b >= 0.0
    {
      var c := p.data[i][j];
      ComponentLevel(max, Level(max, c.r));
      ComponentLevel(max, Level(max, c.g));
      ComponentLevel(max, Level(max, c.b));
    }
  }

  /** What has been loaded is written and loaded without any change. */
  lemma SecondRoundTrip(max: nat, p: Picture, before: Picture)
    requires max > 0 && Paintable(p) && p.xDim > 0 && p.yDim > 0
    ensures Paintable(Quantised(max, p))
    ensures Load(max, before, Ppm(max, Quantised(max, p))) == Loading(Quantised(max, p), None)
  {
    QuantisedPaintable(max, p);
    var q := Quantised(max, p);
    RoundTrip(max, q, before);
    forall i | 0 <= i < p.xDim ensures Quantised(max, q).data[i] == q.data[i] {
      forall j | 0 <= j < p.yDim ensures Quantised(max, q).data[i][j] == q.data[i][j] {
        var c := p.data[i][j];
        ComponentLevel(max, Level(max, c.r));
        ComponentLevel(max, Level(max, c.g));
        ComponentLevel(max, Level(max, c.b));
      }
    }
  }
}
