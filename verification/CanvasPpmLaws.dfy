/** The plain PPM text, said literally: what a picture is printed as, and what a text is read as. */
module CanvasPpmLaws {
  import opened Canvas
  import opened CanvasPpm
  import opened CanvasRoundTrip
  import opened Decimal
  import opened PpmText
  import opened Wrappers

  // ----- what is printed -----

  /** A picture of one pixel: red, green and blue in this order, each cut down to a whole number. */
  lemma OnePixelLaw(max: nat, c: Rgb, r: nat, g: nat, b: nat)
    requires c.r >= 0.0 && c.g >= 0.0 && c.b >= 0.0
    requires r as real <= c.r * max as real < r as real + 1.0
    requires g as real <= c.g * max as real < g as real + 1.0
    requires b as real <= c.b * max as real < b as real + 1.0
    ensures Paintable(Picture(1, 1, [[c]]))
    ensures Ppm(max, Picture(1, 1, [[c]])) ==
            "P3\n1 1\n" + NatText(max) + "\n" + NatText(r) + " " + NatText(g) + " " + NatText(b) + " \n"
  {
    var p := Picture(1, 1, [[c]]);
    var row := [Triple(r, g, b)];
    assert Levels(max, c) == row[0];
    assert RowOf(max, p, 0) == row && RowsOf(max, p) == [row];
    assert row[1..] == [] && RowText(row[1..]) == "" && RowsText(RowsOf(max, p)[1..]) == "";
    assert NatText(1) == "1";
    OnePixelText(NatText(max), NatText(r), NatText(g), NatText(b));
  }

  lemma OnePixelText(m: string, r: string, g: string, b: string)
    ensures "P3" + "\n" + ("1" + " " + "1" + "\n" + (m + "\n")) +
            ((r + " " + (g + " " + (b + " "))) + "" + "\n" + "") ==
            "P3\n1 1\n" + m + "\n" + r + " " + g + " " + b + " \n"
  {
  }

  /** Any picture: a line each for header, dimensions and largest color value, and one for each
      row of pixels. */
  lemma PictureLinesLaw(max: nat, p: Picture)
    requires Paintable(p)
    ensures var lines := Lines(Ppm(max, p));
            |lines| == 3 + p.yDim && lines[0] == "P3" && ReadNumbers(lines[1]) == [p.xDim, p.yDim] &&
            ReadNumbers(lines[2]) == [max]
  {
    LinesOfPpm(max, p);
    RowLinesLength(RowsOf(max, p));
    DimensionsReadBack(p.xDim, p.yDim);
    DimensionsReadBack(p.xDim, max);
  }

  /** Pixel `i` of line `j` is printed as its red, green and blue, each cut down to a whole
      number. */
  lemma PixelLaw(max: nat, p: Picture, i: nat, j: nat, k: nat, v: seq<nat>)
    requires Paintable(p) && i < p.xDim && j < p.yDim && k == 3 * (j * p.xDim + i)
    requires |Lines(Ppm(max, p))| >= 3 && v == AllNumbers(Lines(Ppm(max, p))[3..])
    ensures |v| == 3 * p.xDim * p.yDim && k + 2 < |v|
    ensures v[k] as real <= p.data[i][j].r * max as real < v[k] as real + 1.0
    ensures v[k + 1] as real <= p.data[i][j].g * max as real < v[k + 1] as real + 1.0
    ensures v[k + 2] as real <= p.data[i][j].b * max as real < v[k + 2] as real + 1.0
  {
    var c := PixelNumbers(max, p, i, j, k, v);
    assert c == Levels(max, p.data[i][j]);
  }

  lemma PixelNumbers(max: nat, p: Picture, i: nat, j: nat, k: nat, v: seq<nat>) returns (c: Triple)
    requires Paintable(p) && i < p.xDim && j < p.yDim && k == 3 * (j * p.xDim + i)
    requires |Lines(Ppm(max, p))| >= 3 && v == AllNumbers(Lines(Ppm(max, p))[3..])
    ensures c == Levels(max, p.data[i][j]) && TripleAt(v, k, c) && |v| == 3 * p.xDim * p.yDim
  {
    var rows := RowsOf(max, p);
    LinesOfPpm(max, p);
    assert Lines(Ppm(max, p))[3..] == RowLines(rows);
    RowsReadBack(rows);
    NumbersLength(rows, p.xDim, p.yDim);
    NumbersAt(rows, p.xDim, j, i, k);
    c := rows[j][i];
  }

  lemma {:induction false} RowLinesLength(rows: seq<seq<Triple>>)
    ensures |RowLines(rows)| == |rows|
  {
    if rows != [] { RowLinesLength(rows[1..]); }
  }

  // ----- what is read -----

  lemma LinesLaw(a: string, rest: string)
    requires '\n' !in a
    ensures Lines("") == [] && Lines(a + "\n" + rest) == [a] + Lines(rest) && (a != "" ==> Lines(a) == [a])
  {
    NoFeed(a);
    FirstLine(a, rest);
    if a != "" { assert a[..|a|] == a; }
  }

  lemma {:induction false} NoFeed(a: string)
    requires '\n' !in a
    ensures OneLine(a)
  {
    if a != "" {
      assert a[0] in a;
      NoFeed(a[1..]);
    }
  }

  predicate IsBlank(x: char) {
    x == ' ' || x == '\t' || x == '\n' || x == '\r' || x == '\U{000B}' || x == '\U{000C}'
  }

  lemma BlanksAreSpace(w: string)
    requires forall x :: x in w ==> IsBlank(x)
    ensures AllSpace(w) && '#' !in w
  {
    forall i | 0 <= i < |w| ensures IsSpace(w[i]) {
      assert w[i] in w;
    }
  }

  lemma {:induction false} NothingUncommented(s: string)
    requires '#' !in s
    ensures Uncommented(s) == s
  {
    if s != "" {
      assert s[0] in s;
      NothingUncommented(s[1..]);
    }
  }

  lemma {:induction false} BackSkipped(s: string, w: string)
    requires AllSpace(w)
    ensures SkipBack(s + w) == SkipBack(s)
    decreases |w|
  {
    if w == "" {
      assert s + w == s;
    } else {
      var n := |w| - 1;
      assert (s + w)[..|s + w| - 1] == s + w[..n] && (s + w)[|s + w| - 1] == w[n];
      BackSkipped(s, w[..n]);
    }
  }

  /** Of a line stays what is in front of the first `#`, without white space around it. */
  lemma CleanLaw(before: string, s: string, after: string, comment: string)
    requires (forall x :: x in before ==> IsBlank(x)) && (forall x :: x in after ==> IsBlank(x)) && '#' !in s
    requires s != "" && !IsBlank(s[0]) && !IsBlank(s[|s| - 1])
    ensures Clean(before + (s + after)) == s && Clean(before + (s + after) + "#" + comment) == s
    ensures Clean(before) == "" && Clean(before + "#" + comment) == ""
  {
    var line := before + (s + after);
    BlanksAreSpace(before);
    BlanksAreSpace(after);
    NothingUncommented(before);
    NothingUncommented(line);
    UncommentedComment(line, comment);
    UncommentedComment(before, comment);
    SkipPad(before, s + after);
    SkipPad(before, "");
    assert before + "" == before && (s + after)[0] == s[0];
    BackSkipped(s, after);
  }

  /** Numbers are read up to the end, or up to the first character that belongs to none. */
  lemma NumbersLaw(before: string, n: nat, after: string, rest: string, c: char)
    requires (forall x :: x in before ==> IsBlank(x)) && (forall x :: x in after ==> IsBlank(x)) && after != ""
    requires !IsBlank(c) && !('0' <= c <= '9')
    ensures ReadNumbers(before + (NatText(n) + (after + rest))) == [n] + ReadNumbers(rest)
    ensures ReadNumbers("") == [] && ReadNumbers([c] + rest) == []
    ensures ReadNumbers(before + NatText(n)) == [n]
  {
    BlanksAreSpace(before);
    BlanksAreSpace(after);
    SkipPad(before, NatText(n) + (after + rest));
    SkipPad(before, NatText(n));
    SkipTwice(NatText(n) + (after + rest));
    SkipTwice(NatText(n));
    SkipPad(after, rest);
    SkipTwice(rest);
    assert after[0] in after && (after + rest)[0] == after[0];
    NumberReadBack(n, after + rest);
    NumberReadBack(n, "");
    assert NatText(n) + "" == NatText(n);
    SkippedNumbers(before, NatText(n) + (after + rest));
    SkippedNumbers(before, NatText(n));
    SkippedNumbers(after, rest);
    assert ([c] + rest)[0] == c && Skip([c] + rest) == [c] + rest;
  }

  lemma SkippedNumbers(pad: string, s: string)
    requires AllSpace(pad)
    ensures ReadNumbers(pad + s) == ReadNumbers(s)
  {
    SkipPad(pad, s);
  }

  // ----- loading -----

  /** What a text is loaded as, by its lines without comments, outer white space and empty lines:
      a header, two dimensions above 0, the largest color value, and three numbers per pixel, line
      by line. A failure leaves the canvas alone up to the dimensions and black behind them. */
  lemma LoadLaw(max: nat, p: Picture, text: string, m: seq<string>, r: Loading)
    requires max > 0 && m == Meaningful(Lines(text)) && r == Load(max, p, text) && |m| >= 1
    ensures m[0] != "P3" ==> r == Loading(p, Some(BadHeader))
    ensures m[0] == "P3" && |m| > 1 && |ReadNumbers(m[1])| != 2 ==> r == Loading(p, Some(BadDimensionCount))
    ensures m[0] == "P3" && |m| > 1 && |ReadNumbers(m[1])| == 2 ==>
      var x, y := ReadNumbers(m[1])[0], ReadNumbers(m[1])[1];
      if x == 0 || y == 0 then r == Loading(p, Some(ZeroDimension))
      else r.picture.xDim == x && r.picture.yDim == y && |r.picture.data| == x
  {
    OnlyMeaningfulLines(max, p, Lines(text));
  }

  /** The same as of the largest color value. */
  lemma LoadPixelsLaw(max: nat, p: Picture, text: string, m: seq<string>, x: nat, y: nat, v: seq<nat>, r: Loading,
      i: nat, j: nat, k: nat)
    requires max > 0 && m == Meaningful(Lines(text)) && r == Load(max, p, text)
    requires |m| > 2 && m[0] == "P3" && ReadNumbers(m[1]) == [x, y] && x > 0 && y > 0 && v == NumbersOf(m[3..])
    requires i < x && j < y && k == 3 * (j * x + i)
    ensures |ReadNumbers(m[2])| != 1 ==> r.error == Some(BadDepthCount)
    ensures |ReadNumbers(m[2])| == 1 && ReadNumbers(m[2])[0] != max ==> r.error == Some(BadDepth)
    ensures ReadNumbers(m[2]) == [max] ==> r.error == if |v| != 3 * x * y then Some(BadEntryCount) else None
    ensures r.picture.xDim == x && r.picture.yDim == y && |r.picture.data| == x && |r.picture.data[i]| == y
    ensures r.error.Some? ==> r.picture.data[i][j] == Rgb(0.0, 0.0, 0.0)
    ensures r.error == None ==>
      k + 2 < |v| &&
      r.picture.data[i][j] ==
      Rgb(v[k] as real / max as real, v[k + 1] as real / max as real, v[k + 2] as real / max as real)
  {
    OnlyMeaningfulLines(max, p, Lines(text));
    assert m[2..][1..] == m[3..];
    OffsetInRange(x, y, i, j);
  }
}
