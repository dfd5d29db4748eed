/** Packed colours as the wall builder sees them. The colour arithmetic itself
    (brightness tables, modulation, glow blending) lives in collaborators and is
    passed to the model as functions. */
module Colour {

  datatype PixelColor = PixelColor(a: int, r: int, g: int, b: int)

  /** The same colour with its alpha channel replaced. */
  function WithAlpha(c: PixelColor, alpha: int): (r: PixelColor)
    ensures r.a == alpha && r.r == c.r && r.g == c.g && r.b == c.b
  {
    c.(a := alpha)
  }
}
