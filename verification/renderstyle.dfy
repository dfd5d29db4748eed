/** Choosing the render pass and alpha of a wall part from its linedef
    (`SetLinedefRenderstyle`): either the TranslucentLine action (208) with its
    arguments, or the UDMF `alpha` / `renderstyle` fields and `transparent` flag. */
module RenderStyle {

  /** The kind of wall part being built. */
  datatype WallPart = UpperPart | MiddleSingle | MiddleDouble | Middle3D | MiddleBack | LowerPart

  datatype RenderPass = Solid | Mask | Alpha | Additive

  /** What the classification reads from the linedef and the texture. `args`
      are the action arguments; `alphaField` and `renderstyleField` are the UDMF
      fields with their defaults (1.0 and "translucent") already applied. */
  datatype LinedefStyle = LinedefStyle(
    action: int,
    args: seq<int>,
    alphaField: real,
    renderstyleField: string,
    transparentFlag: bool,
    textureTranslucent: bool)

  /** The action number of TranslucentLine. */
  const TranslucentLine: int := 208

  /** Alpha assigned to a fully opaque linedef that carries the transparent flag. */
  const TransparentAlpha: int := 64

  /** Only double-sided middles, 3D-floor middles and back middles can be
      translucent or additive. */
  predicate CanHaveAlpha(part: WallPart)
  {
    part == MiddleDouble || part == Middle3D || part == MiddleBack
  }

  function Clamp(v: int, lo: int, hi: int): (r: int)
    requires lo <= hi
    ensures lo <= r <= hi
    ensures lo <= v <= hi ==> r == v
    ensures v < lo ==> r == lo
    ensures v > hi ==> r == hi
  {
    if v < lo then lo else if v > hi then hi else v
  }

  /** A cast of a floating value to `byte`: truncation toward zero, then the
      low eight bits. */
  function ByteCast(x: real): (r: int)
    ensures 0 <= r < 256
    ensures 0.0 <= x < 256.0 ==> r as real <= x < r as real + 1.0
  {
    var t := if x >= 0.0 then x.Floor else -((-x).Floor);
    t % 256
  }

  /** A linedef carries five action arguments. */
  predicate ValidArgs(ld: LinedefStyle) { |ld.args| == 5 }

  /** The alpha of the part. */
  function LinedefAlpha(ld: LinedefStyle): (alpha: int)
    requires ValidArgs(ld)
    ensures 0 <= alpha <= 255
  {
    if ld.action == TranslucentLine then Clamp(ld.args[1], 0, 255)
    else
      var a := ByteCast(ld.alphaField * 255.0);
      if a == 255 && ld.transparentFlag then TransparentAlpha else a
  }

  /** Whether the linedef asks for additive blending. */
  predicate WantsAdditive(ld: LinedefStyle)
    requires ValidArgs(ld)
  {
    if ld.action == TranslucentLine then ld.args[2] == 1 else ld.renderstyleField == "add"
  }

  /** The render pass and alpha of a wall part. */
  function SetLinedefRenderstyle(ld: LinedefStyle, part: WallPart, solidasmask: bool): (r: (RenderPass, int))
    requires ValidArgs(ld)
    ensures r.1 == LinedefAlpha(ld) && 0 <= r.1 <= 255
    ensures r.0 == Additive || r.0 == Alpha ==> CanHaveAlpha(part)
    ensures r.0 != Additive && r.0 != Alpha ==> r.0 == (if solidasmask then Mask else Solid)
    ensures r.0 == Additive <==> CanHaveAlpha(part) && WantsAdditive(ld)
    ensures r.0 == Alpha <==> CanHaveAlpha(part) && !WantsAdditive(ld) && (r.1 < 255 || ld.textureTranslucent)
  {
    var alpha := LinedefAlpha(ld);
    var canhavealpha := CanHaveAlpha(part);
    var pass :=
      if canhavealpha && WantsAdditive(ld) then Additive
      else if canhavealpha && (alpha < 255 || ld.textureTranslucent) then Alpha
      else if solidasmask then Mask
      else Solid;
    (pass, alpha)
  }

  /** With the TranslucentLine action the alpha is argument 1 (the amount)
      clamped to a byte. */
  lemma ActionAlpha(ld: LinedefStyle)
    requires ValidArgs(ld) && ld.action == TranslucentLine
    ensures 0 <= ld.args[1] <= 255 ==> LinedefAlpha(ld) == ld.args[1]
    ensures ld.args[1] < 0 ==> LinedefAlpha(ld) == 0
    ensures ld.args[1] > 255 ==> LinedefAlpha(ld) == 255
  {
  }

  /** With UDMF fields, an alpha field in [0, 1] maps to 255 times its value,
      truncated; a fully opaque linedef with the transparent flag gets alpha 64. */
  lemma FieldAlpha(ld: LinedefStyle)
    requires ValidArgs(ld) && ld.action != TranslucentLine
    requires 0.0 <= ld.alphaField <= 1.0
    ensures LinedefAlpha(ld) == (if ld.alphaField == 1.0 && ld.transparentFlag then TransparentAlpha
                                 else (ld.alphaField * 255.0).Floor)
    ensures ld.alphaField < 1.0 ==> LinedefAlpha(ld) < 255
  {
    var x := ld.alphaField * 255.0;
    assert 0.0 <= x <= 255.0;
    assert ByteCast(x) == x.Floor;
    if ld.alphaField < 1.0 {
      assert x < 255.0;
    }
  }

  /** The alpha depends on the linedef alone, and the caller's `solidasmask`
      choice only ever swaps Mask and Solid: it never turns a translucent or
      additive part opaque, nor the reverse. */
  lemma SolidAsMaskOnlySwapsOpaque(ld: LinedefStyle, part1: WallPart, part2: WallPart, part: WallPart)
    requires ValidArgs(ld)
    ensures SetLinedefRenderstyle(ld, part1, true).1 == SetLinedefRenderstyle(ld, part2, false).1
    ensures SetLinedefRenderstyle(ld, part, true).0 == Mask <==> SetLinedefRenderstyle(ld, part, false).0 == Solid
    ensures SetLinedefRenderstyle(ld, part, true).0 in {Alpha, Additive} ==>
              SetLinedefRenderstyle(ld, part, false).0 == SetLinedefRenderstyle(ld, part, true).0
  {
  }

  /** TranslucentLine with amount 100 on a double-sided middle is drawn in the
      alpha pass with alpha 100, whatever `solidasmask` says. */
  lemma TranslucentLineExample(ld: LinedefStyle, solidasmask: bool)
    requires ld.action == TranslucentLine && ld.args == [0, 100, 0, 0, 0]
    ensures SetLinedefRenderstyle(ld, MiddleDouble, solidasmask) == (Alpha, 100)
  {
  }
}
