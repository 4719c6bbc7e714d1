/** Facts about products of real numbers. */
module RealArithmetic {

  lemma SameSigns(v: real, w: real, product: real)
    requires product == v * w && ((v > 0.0 && w > 0.0) || (v < 0.0 && w < 0.0))
    ensures product > 0.0
  {
  }

  lemma ProductNotNegative(v: real, w: real, product: real)
    requires product == v * w && v >= 0.0 && w >= 0.0
    ensures product >= 0.0
  {
  }
}
