/** A collection of pixels in a two-dimensional array, held by columns. */
module Canvas {

  datatype Rgb = Rgb(r: real, g: real, b: real)

  const BLACK := Rgb(0.0, 0.0, 0.0)

  class GCanvas {
    var data: seq<seq<Rgb>>
    var xDim: nat
    var yDim: nat

    ghost predicate Valid()
      reads this
    {
      |data| == xDim && forall i :: 0 <= i < xDim ==> |data[i]| == yDim
    }

    constructor ()
      ensures Valid() && xDim == 0 && yDim == 0
    {
      data, xDim, yDim := [], 0, 0;
    }

    method Reset(dimension: (nat, nat), color: Rgb)
      modifies this
      ensures Valid() && xDim == dimension.0 && yDim == dimension.1
      ensures forall i, j :: 0 <= i < xDim && 0 <= j < yDim ==> data[i][j] == color
    {
      data := [];
      xDim, yDim := dimension.0, dimension.1;
      for i := 0 to xDim
        invariant |data| == i && xDim == dimension.0 && yDim == dimension.1
        invariant forall k :: 0 <= k < i ==> |data[k]| == yDim
        invariant forall k, j :: 0 <= k < i && 0 <= j < yDim ==> data[k][j] == color
      {
        data := data + [seq(yDim, _ => color)];
      }
    }
  }
}
