/** Writing a canvas in the plain PPM format and reading it back. `max` is the largest color
    value, 2 to the power of the color depth less 1. */
module CanvasPpm {
  import opened Canvas
  import opened Decimal
  import opened PpmText
  import opened Wrappers

  datatype LoadError = BadHeader | BadDimensionCount | ZeroDimension | BadDepthCount | BadDepth | BadEntryCount

  /** The content of a canvas. */
  datatype Picture = Picture(xDim: nat, yDim: nat, data: seq<seq<Rgb>>) {
    ghost predicate Valid() { |data| == xDim && forall i :: 0 <= i < xDim ==> |data[i]| == yDim }
  }

  /** What a canvas holds after loading, and whether an exception was thrown. */
  datatype Loading = Loading(picture: Picture, error: Option<LoadError>)

  ghost function PictureOf(c: GCanvas): Picture
    reads c
  {
    Picture(c.xDim, c.yDim, c.data)
  }

  // ----- colors -----

  ghost predicate Paintable(p: Picture) {
    p.Valid() &&
    forall i, j :: 0 <= i < p.xDim && 0 <= j < p.yDim ==>
      p.data[i][j].r >= 0.0 && p.data[i][j].g >= 0.0 && p.data[i][j].b >= 0.0
  }

  /** A color component as a number. */
  function Level(max: nat, x: real): nat
    requires x >= 0.0
  {
    LevelNotNegative(max, x);
    (x * max as real).Floor
  }

  lemma LevelNotNegative(max: nat, x: real)
    requires x >= 0.0
    ensures (x * max as real).Floor >= 0
  {
    assert x * max as real >= 0.0;
  }

  function Component(max: nat, n: nat): real
    requires max > 0
  {
    n as real / max as real
  }

  /** A color as three numbers. */
  datatype Triple = Triple(r: nat, g: nat, b: nat)

  function Levels(max: nat, c: Rgb): Triple
    requires c.r >= 0.0 && c.g >= 0.0 && c.b >= 0.0
  {
    Triple(Level(max, c.r), Level(max, c.g), Level(max, c.b))
  }

  function Color(max: nat, v: seq<nat>, k: nat): Rgb
    requires max > 0 && k + 3 <= |v|
  {
    Rgb(Component(max, v[k]), Component(max, v[k + 1]), Component(max, v[k + 2]))
  }

  // ----- writing -----

  function PixelText(c: Triple): string {
    NatText(c.r) + " " + (NatText(c.g) + " " + (NatText(c.b) + " "))
  }

  function RowText(row: seq<Triple>): string {
    if row == [] then "" else PixelText(row[0]) + RowText(row[1..])
  }

  function RowsText(rows: seq<seq<Triple>>): string {
    if rows == [] then "" else RowText(rows[0]) + "\n" + RowsText(rows[1..])
  }

  function HeaderText(max: nat, xDim: nat, yDim: nat): string {
    "P3" + "\n" + (NatText(xDim) + " " + NatText(yDim) + "\n" + (NatText(max) + "\n"))
  }

  /** Line `j` of the picture. */
  ghost function RowOf(max: nat, p: Picture, j: nat): seq<Triple>
    requires Paintable(p) && j < p.yDim
  {
    seq(p.xDim, i requires 0 <= i < p.xDim => Levels(max, p.data[i][j]))
  }

  ghost function RowsOf(max: nat, p: Picture): seq<seq<Triple>>
    requires Paintable(p)
  {
    seq(p.yDim, j requires 0 <= j < p.yDim => RowOf(max, p, j))
  }

  ghost function Ppm(max: nat, p: Picture): string
    requires Paintable(p)
  {
    HeaderText(max, p.xDim, p.yDim) + RowsText(RowsOf(max, p))
  }

  lemma TextAssociates(a: string, b: string, c: string)
    ensures a + (b + c) == (a + b) + c
  {
  }

  method ToPPM(max: nat, canvas: GCanvas) returns (result: string)
    requires Paintable(PictureOf(canvas))
    ensures result == Ppm(max, PictureOf(canvas))
  {
    result := HeaderText(max, canvas.xDim, canvas.yDim);
    ghost var rows := RowsOf(max, PictureOf(canvas));
    for iy := 0 to canvas.yDim
      invariant result + RowsText(rows[iy..]) == Ppm(max, PictureOf(canvas))
    {
      var line := RowToText(max, canvas, iy);
      assert rows[iy..][1..] == rows[iy + 1..];
      TextAssociates(result, line + "\n", RowsText(rows[iy + 1..]));
      result := result + (line + "\n");
    }
  }

  /** The inner loop. */
  method RowToText(max: nat, canvas: GCanvas, iy: nat) returns (line: string)
    requires Paintable(PictureOf(canvas)) && iy < canvas.yDim
    ensures line == RowText(RowOf(max, PictureOf(canvas), iy))
  {
    line := "";
    ghost var row := RowOf(max, PictureOf(canvas), iy);
    for ix := 0 to canvas.xDim
      invariant line + RowText(row[ix..]) == RowText(row)
    {
      var c := canvas.data[ix][iy];
      assert row[ix..][1..] == row[ix + 1..];
      TextAssociates(line, PixelText(row[ix]), RowText(row[ix + 1..]));
      line := line + PixelText(Levels(max, c));
    }
  }

  // ----- reading -----

  /** What the reader is waiting for. */
  datatype Phase = AtHeader | AtDimensions | AtDepth

  function Black(xDim: nat, yDim: nat): Picture {
    Picture(xDim, yDim, seq(xDim, _ => seq(yDim, _ => BLACK)))
  }

  /** The numbers of all lines that are not empty. */
  function AllNumbers(lines: seq<string>): seq<nat> {
    if lines == [] then []
    else (if Clean(lines[0]) == "" then [] else ReadNumbers(Clean(lines[0]))) + AllNumbers(lines[1..])
  }

  lemma OffsetInRange(x: nat, y: nat, i: nat, j: nat)
    requires i < x && j < y
    ensures 3 * (j * x + i) + 3 <= 3 * x * y
  {
    assert (j + 1) * x <= y * x;
  }

  function Painted(max: nat, xDim: nat, yDim: nat, v: seq<nat>): Picture
    requires max > 0 && |v| == 3 * xDim * yDim
  {
    Picture(xDim, yDim,
            seq(xDim, i requires 0 <= i < xDim => seq(yDim, j requires 0 <= j < yDim =>
                                                        OffsetInRange(xDim, yDim, i, j);
                                                        Color(max, v, 3 * (j * xDim + i)))))
  }

  /** The end of loading, with the pixel data in hand. */
  function Fill(max: nat, p: Picture, v: seq<nat>): Loading
    requires max > 0
  {
    if |v| != 3 * p.xDim * p.yDim then Loading(p, Some(BadEntryCount))
    else Loading(Painted(max, p.xDim, p.yDim, v), None)
  }

  function LoadLines(max: nat, p: Picture, lines: seq<string>, phase: Phase): Loading
    requires max > 0
    decreases |lines|
  {
    if lines == [] then Fill(max, p, [])
    else
      var s := Clean(lines[0]);
      var v := ReadNumbers(lines[0]);
      if s == "" then LoadLines(max, p, lines[1..], phase)
      else
        match phase
        case AtHeader =>
          if s != "P3" then Loading(p, Some(BadHeader)) else LoadLines(max, p, lines[1..], AtDimensions)
        case AtDimensions =>
          if |v| != 2 then Loading(p, Some(BadDimensionCount))
          else if v[0] <= 0 || v[1] <= 0 then Loading(p, Some(ZeroDimension))
          else LoadLines(max, Black(v[0], v[1]), lines[1..], AtDepth)
        case AtDepth =>
          if |v| != 1 then Loading(p, Some(BadDepthCount))
          else if v[0] != max then Loading(p, Some(BadDepth))
          else Fill(max, p, AllNumbers(lines[1..]))
  }

  function Load(max: nat, p: Picture, text: string): Loading
    requires max > 0
  {
    LoadLines(max, p, Lines(text), AtHeader)
  }

  method LoadFromPPM(max: nat, canvas: GCanvas, text: string) returns (error: Option<LoadError>)
    requires max > 0 && canvas.Valid()
    modifies canvas
    ensures canvas.Valid()
    ensures Loading(PictureOf(canvas), error) == Load(max, old(PictureOf(canvas)), text)
  {
    var headerFound, dimensionsFound, colorDepthFound := false, false, false;
    var input := Lines(text);
    while input != [] && !colorDepthFound
      invariant canvas.Valid() && (dimensionsFound ==> headerFound) && (colorDepthFound ==> dimensionsFound)
      invariant Load(max, old(PictureOf(canvas)), text) ==
                if colorDepthFound then Fill(max, PictureOf(canvas), AllNumbers(input))
                else LoadLines(max, PictureOf(canvas), input, PhaseOf(headerFound, dimensionsFound))
      decreases |input|
    {
      var line := input[0];
      var s := Clean(line);
      var v := ReadNumbers(line);
      input := input[1..];
      if s == "" { continue; }
      if !headerFound {
        if s != "P3" { return Some(BadHeader); }
        headerFound := true;
      } else if !dimensionsFound {
        if |v| != 2 { return Some(BadDimensionCount); }
        if v[0] <= 0 || v[1] <= 0 { return Some(ZeroDimension); }
        canvas.Reset((v[0], v[1]), BLACK);
        assert forall i :: 0 <= i < canvas.xDim ==> canvas.data[i] == Black(v[0], v[1]).data[i];
        assert PictureOf(canvas) == Black(v[0], v[1]);
        dimensionsFound := true;
      } else {
        if |v| != 1 { return Some(BadDepthCount); }
        if v[0] != max { return Some(BadDepth); }
        colorDepthFound := true;
      }
    }
    var v := ReadEntries(input);
    if |v| != 3 * canvas.xDim * canvas.yDim { return Some(BadEntryCount); }
    FillCanvas(max, canvas, v);
    return None;
  }

  function PhaseOf(headerFound: bool, dimensionsFound: bool): Phase {
    if !headerFound then AtHeader else if !dimensionsFound then AtDimensions else AtDepth
  }

  lemma AddAssociates(a: seq<nat>, b: seq<nat>, c: seq<nat>)
    ensures a + (b + c) == (a + b) + c
  {
  }

  /** The loop over the remaining lines. */
  method ReadEntries(lines: seq<string>) returns (v: seq<nat>)
    ensures v == AllNumbers(lines)
  {
    v := [];
    var input := lines;
    while input != []
      invariant v + AllNumbers(input) == AllNumbers(lines)
      decreases |input|
    {
      var s := Clean(input[0]);
      var numbers := if s == "" then [] else ReadNumbers(s);
      assert AllNumbers(input) == numbers + AllNumbers(input[1..]);
      AddAssociates(v, numbers, AllNumbers(input[1..]));
      input := input[1..];
      v := v + numbers;
    }
  }

  /** The loops over the pixels. */
  method FillCanvas(max: nat, canvas: GCanvas, v: seq<nat>)
    requires max > 0 && canvas.Valid() && |v| == 3 * canvas.xDim * canvas.yDim
    modifies canvas`data
    ensures canvas.Valid() && PictureOf(canvas) == Painted(max, canvas.xDim, canvas.yDim, v)
  {
    ghost var p := Painted(max, canvas.xDim, canvas.yDim, v);
    for line := 0 to canvas.yDim
      invariant canvas.Valid()
      invariant forall i, j :: 0 <= i < canvas.xDim && 0 <= j < line ==> canvas.data[i][j] == p.data[i][j]
    {
      for pixel := 0 to canvas.xDim
        invariant canvas.Valid()
        invariant forall i, j :: 0 <= i < canvas.xDim && 0 <= j < line ==> canvas.data[i][j] == p.data[i][j]
        invariant forall i :: 0 <= i < pixel ==> canvas.data[i][line] == p.data[i][line]
      {
        OffsetInRange(canvas.xDim, canvas.yDim, pixel, line);
        var color := Color(max, v, 3 * (line * canvas.xDim + pixel));
        canvas.data := canvas.data[pixel := canvas.data[pixel][line := color]];
      }
    }
    assert forall i :: 0 <= i < canvas.xDim ==> canvas.data[i] == p.data[i];
  }

  // ----- comments and empty lines -----

  /** The lines that are not empty once comments and outer white space are gone. */
  function Meaningful(lines: seq<string>): seq<string> {
    if lines == [] then []
    else (if Clean(lines[0]) == "" then [] else [Clean(lines[0])]) + Meaningful(lines[1..])
  }

  function NumbersOf(lines: seq<string>): seq<nat> {
    if lines == [] then [] else ReadNumbers(lines[0]) + NumbersOf(lines[1..])
  }

  /** Loading, said of the meaningful lines alone: a header, the dimensions, the color depth
      and the entries. */
  function LoadMeaningful(max: nat, p: Picture, m: seq<string>): Loading
    requires max > 0
  {
    if m == [] then Fill(max, p, [])
    else if m[0] != "P3" then Loading(p, Some(BadHeader))
    else if |m| == 1 then Fill(max, p, [])
    else
      var d := ReadNumbers(m[1]);
      if |d| != 2 then Loading(p, Some(BadDimensionCount))
      else if d[0] == 0 || d[1] == 0 then Loading(p, Some(ZeroDimension))
      else LoadFromDepth(max, Black(d[0], d[1]), m[2..])
  }

  /** The color depth and the entries of a picture whose dimensions are known. */
  function LoadFromDepth(max: nat, p: Picture, m: seq<string>): Loading
    requires max > 0
  {
    if m == [] then Fill(max, p, [])
    else if |ReadNumbers(m[0])| != 1 then Loading(p, Some(BadDepthCount))
    else if ReadNumbers(m[0])[0] != max then Loading(p, Some(BadDepth))
    else Fill(max, p, NumbersOf(m[1..]))
  }

  lemma {:induction false} NumbersMeaningful(lines: seq<string>)
    ensures AllNumbers(lines) == NumbersOf(Meaningful(lines))
  {
    if lines != [] {
      NumbersMeaningful(lines[1..]);
      var rest := Meaningful(lines[1..]);
      assert ([Clean(lines[0])] + rest)[1..] == rest;
      assert [] + rest == rest;
    }
  }

  lemma {:induction false} DepthMeaningful(max: nat, p: Picture, lines: seq<string>)
    requires max > 0
    ensures LoadLines(max, p, lines, AtDepth) == LoadFromDepth(max, p, Meaningful(lines))
  {
    if lines != [] {
      CleanKeepsNumbers(lines[0]);
      var rest := Meaningful(lines[1..]);
      if Clean(lines[0]) == "" {
        DepthMeaningful(max, p, lines[1..]);
        assert [] + rest == rest;
      } else {
        NumbersMeaningful(lines[1..]);
        assert ([Clean(lines[0])] + rest)[1..] == rest;
      }
    }
  }

  lemma {:induction false} DimensionsMeaningful(max: nat, p: Picture, lines: seq<string>)
    requires max > 0
    ensures LoadLines(max, p, lines, AtDimensions) == LoadMeaningful(max, p, ["P3"] + Meaningful(lines))
  {
    if lines != [] {
      CleanKeepsNumbers(lines[0]);
      var rest := Meaningful(lines[1..]);
      if Clean(lines[0]) == "" {
        DimensionsMeaningful(max, p, lines[1..]);
        assert [] + rest == rest;
      } else {
        DimensionsRead(max, p, lines);
      }
    }
  }

  /** The line with the dimensions. */
  lemma DimensionsRead(max: nat, p: Picture, lines: seq<string>)
    requires max > 0 && lines != [] && Clean(lines[0]) != ""
    ensures LoadLines(max, p, lines, AtDimensions) == LoadMeaningful(max, p, ["P3"] + Meaningful(lines))
  {
    CleanKeepsNumbers(lines[0]);
    var rest, d := Meaningful(lines[1..]), ReadNumbers(lines[0]);
    var m := ["P3"] + Meaningful(lines);
    assert m == ["P3", Clean(lines[0])] + rest;
    assert m[0] == "P3" && m[1] == Clean(lines[0]) && m[2..] == rest;
    if |d| == 2 && d[0] > 0 && d[1] > 0 {
      DepthMeaningful(max, Black(d[0], d[1]), lines[1..]);
    }
  }

  /** Only the meaningful lines count. */
  lemma {:induction false} OnlyMeaningfulLines(max: nat, p: Picture, lines: seq<string>)
    requires max > 0
    ensures LoadLines(max, p, lines, AtHeader) == LoadMeaningful(max, p, Meaningful(lines))
  {
    if lines != [] {
      var rest := Meaningful(lines[1..]);
      if Clean(lines[0]) == "" {
        OnlyMeaningfulLines(max, p, lines[1..]);
        assert [] + rest == rest;
      } else {
        DimensionsMeaningful(max, p, lines[1..]);
      }
    }
  }
}
