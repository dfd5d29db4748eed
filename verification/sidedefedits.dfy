/** Small pieces of arithmetic and field lookup behind the texture-offset,
    texture-scale and light edits of a wall part. */
module SidedefEdits {
  import opened Wrappers
  import opened Geometry

  /** The part of the sidedef a visual wall geometry stands for. */
  datatype GeometryType = UnknownGeometry | FloorGeometry | CeilingGeometry | WallUpper | WallMiddle | WallMiddle3D | WallLower

  /** The enum member's name, as it appears in messages. */
  function GeometryTypeName(gt: GeometryType): string
  {
    match gt
    case UnknownGeometry => "UNKNOWN"
    case FloorGeometry => "FLOOR"
    case CeilingGeometry => "CEILING"
    case WallUpper => "WALL_UPPER"
    case WallMiddle => "WALL_MIDDLE"
    case WallMiddle3D => "WALL_MIDDLE_3D"
    case WallLower => "WALL_LOWER"
  }

  function Abs(x: int): nat { if x < 0 then -x else x }

  function AbsReal(x: real): real { if x < 0.0 then -x else x }

  function Sign(x: int): int { if x < 0 then -1 else if x > 0 then 1 else 0 }

  // ---------------------------------------------------------------------------
  // Remainders as C# computes them: the result takes the sign of the dividend.

  /** `a / m` on integers: the quotient truncated toward zero. */
  function IntQuot(a: int, m: int): int
    requires m != 0
  {
    var q := Abs(a) / Abs(m);
    if (a >= 0) == (m > 0) then q else -q
  }

  /** `a % m` on integers. */
  function IntRem(a: int, m: int): (r: int)
    requires m != 0
    ensures Abs(r) < Abs(m)
    ensures a >= 0 ==> r >= 0
    ensures a <= 0 ==> r <= 0
    ensures a == IntQuot(a, m) * m + r
  {
    var q := Abs(a) / Abs(m);
    var rm := Abs(a) % Abs(m);
    assert Abs(a) == q * Abs(m) + rm;
    assert IntQuot(a, m) * m == (if a >= 0 then q * Abs(m) else -(q * Abs(m)));
    if a >= 0 then rm else -rm
  }

  /** |m * f| < |m| for |f| < 1. */
  lemma ScaledBelow(m: real, f: real)
    requires m != 0.0 && -1.0 < f < 1.0
    ensures AbsReal(m * f) < AbsReal(m)
  {
    if m > 0.0 {
      assert m * f < m * 1.0;
      assert m * f > m * -1.0;
    } else {
      assert m * f > m * 1.0;
      assert m * f < m * -1.0;
    }
  }

  /** `q` whole repeats of `m`. */
  function Repeats(q: int, m: real): real
  {
    q as real * m
  }

  /** Taking `Trunc(x / m)` repeats of `m` off `x` leaves less than one `m`,
      with the sign of `x`. */
  lemma RemainderBounds(x: real, m: real, q: int)
    requires m != 0.0 && q == Trunc(x / m)
    ensures AbsReal(x - m * q as real) < AbsReal(m)
    ensures x >= 0.0 ==> x - m * q as real >= 0.0
    ensures x <= 0.0 ==> x - m * q as real <= 0.0
  {
    var d := x / m;
    var f := d - q as real;
    assert x == d * m;
    assert x - m * q as real == m * f;
    ScaledBelow(m, f);
    assert d >= 0.0 ==> 0.0 <= f;
    assert d <= 0.0 ==> f <= 0.0;
    assert x >= 0.0 ==> m * f >= 0.0;
    assert x <= 0.0 ==> m * f <= 0.0;
  }

  /** `x % m` on doubles: what is left of `x` after a whole number of `m`
      repeats, with the sign of `x`. */
  function RealRem(x: real, m: real): (r: real)
    requires m != 0.0
    ensures AbsReal(r) < AbsReal(m)
    ensures x >= 0.0 ==> r >= 0.0
    ensures x <= 0.0 ==> r <= 0.0
    ensures exists q: int :: x == Repeats(q, m) + r
  {
    var q := Trunc(x / m);
    RemainderBounds(x, m, q);
    assert x == Repeats(q, m) + (x - m * q as real);
    x - m * q as real
  }

  lemma RealRemOfMultiple(q: int, m: real)
    requires m != 0.0
    ensures RealRem(q as real * m, m) == 0.0
  {
    var x := q as real * m;
    var d := x / m;
    assert d * m == x;
    assert (d - q as real) * m == 0.0;
    assert d == q as real;
    assert Trunc(d) == q;
  }

  // ---------------------------------------------------------------------------
  // Rounded texture offsets of UDMF offset edits.

  /** The offset step is zero, or a whole number of texture repeats. */
  predicate NoVisibleChange(offset: real, textureSize: real)
  {
    offset == 0.0 || (textureSize != 0.0 && RealRem(offset, textureSize) == 0.0)
  }

  /** The moved offset rounded to a whole unit and, for a positive texture
      size, reduced by whole texture repeats to within one size of zero. */
  function WrappedOffset(oldValue: real, scaledOffset: real, textureSize: real): (w: real)
    ensures textureSize > 0.0 ==> exists q: int :: Round(oldValue + scaledOffset) as real == Repeats(q, textureSize) + w
    ensures textureSize > 0.0 ==> -textureSize < w < textureSize
    ensures textureSize > 0.0 && oldValue + scaledOffset >= 0.5 ==> w >= 0.0
    ensures textureSize > 0.0 && oldValue + scaledOffset <= -0.5 ==> w <= 0.0
    ensures textureSize <= 0.0 ==> w == Round(oldValue + scaledOffset) as real
  {
    var rounded := Round(oldValue + scaledOffset) as real;
    if textureSize > 0.0 then RealRem(rounded, textureSize) else rounded
  }

  /** Moves `oldValue` by `offset` scaled by |scale|, rounds it, wraps it into
      the texture's size and makes sure the value moves by at least one unit. A
      step that is zero or a multiple of the texture size changes nothing. When
      the wrapped value lands back on `oldValue`, it is nudged by one unit in the
      direction of the step. */
  function GetRoundedTextureOffset(oldValue: real, offset: real, scale: real, textureSize: real): (r: real)
    ensures r == oldValue <==> NoVisibleChange(offset, textureSize)
    ensures !NoVisibleChange(offset, textureSize) && textureSize > 0.0 ==> -textureSize - 1.0 < r < textureSize + 1.0
    ensures !NoVisibleChange(offset, textureSize) && textureSize <= 0.0
            ==> AbsReal(r - Round(oldValue + offset * AbsReal(scale)) as real) <= 1.0
  {
    if NoVisibleChange(offset, textureSize) then oldValue
    else
      var scaledOffset := offset * AbsReal(scale);
      var wrapped := WrappedOffset(oldValue, scaledOffset, textureSize);
      if wrapped == oldValue then wrapped + (if scaledOffset < 0.0 then -1.0 else 1.0) else wrapped
  }

  /** The value of a visible offset step: the wrapped rounded offset, unless
      that lands back on the old offset, which is then moved one unit in the
      direction of the step. */
  lemma RoundedOffsetValue(oldValue: real, offset: real, scale: real, textureSize: real)
    requires !NoVisibleChange(offset, textureSize)
    ensures var w := WrappedOffset(oldValue, offset * AbsReal(scale), textureSize);
      var r := GetRoundedTextureOffset(oldValue, offset, scale, textureSize);
      && (w != oldValue ==> r == w)
      && (w == oldValue && offset * AbsReal(scale) < 0.0 ==> r == oldValue - 1.0)
      && (w == oldValue && offset * AbsReal(scale) >= 0.0 ==> r == oldValue + 1.0)
  {
  }

  /** Moving offset 10 by 3 on a 64-wide texture gives 13. */
  lemma RoundedOffsetExample()
    ensures GetRoundedTextureOffset(10.0, 3.0, 1.0, 64.0) == 13.0
  {
  }

  /** Moving offset 5 by 63.6 on a 64-wide texture rounds to 69, which wraps
      back to 5; the step is positive, so the offset is nudged to 6. */
  lemma RoundedOffsetNudgeExample()
    ensures GetRoundedTextureOffset(5.0, 63.6, 1.0, 64.0) == 6.0
  {
  }

  /** The unscaled variant used by offset changes. */
  function GetNewTextureOffset(oldValue: real, offset: real, textureSize: real): (r: real)
    ensures r == oldValue <==> NoVisibleChange(offset, textureSize)
  {
    GetRoundedTextureOffset(oldValue, offset, 1.0, textureSize)
  }

  /** Moving by a whole number of texture repeats never changes the offset. */
  lemma WholeRepeatsKeepOffset(oldValue: real, repeats: int, scale: real, textureSize: real)
    requires textureSize != 0.0
    ensures GetRoundedTextureOffset(oldValue, repeats as real * textureSize, scale, textureSize) == oldValue
  {
    RealRemOfMultiple(repeats, textureSize);
  }

  // ---------------------------------------------------------------------------
  // Classic (non-UDMF) texture offsets.

  /** The sidedef's offsets after a classic offset edit, and the exception the
      edit raised, if any. The fields are assigned one after the other, so an
      exception leaves behind whatever was written before it. */
  datatype OffsetEdit = OffsetEdit(offsetX: int, offsetY: int, fault: Option<string>)

  /** New sidedef offsets after moving by (horizontal, vertical): wrapped by the
      texture's width and, except on middle walls, its height, when the texture
      is loaded. A zero texture size throws as the integer remainder would: a
      zero width after the horizontal offset was moved and before the vertical
      one is touched, a zero height after the horizontal offset was wrapped and
      the vertical one moved. */
  function ClassicOffsets(offsetX: int, offsetY: int, horizontal: int, vertical: int, gt: GeometryType,
                          textureLoaded: bool, width: int, height: int): (r: OffsetEdit)
    ensures r.fault.Some? <==> textureLoaded && (width == 0 || (gt != WallMiddle && height == 0))
    ensures r.fault.Some? ==> r.fault.value == "DivideByZeroException"
    ensures !textureLoaded ==> r.offsetX == offsetX - horizontal && r.offsetY == offsetY - vertical
    ensures textureLoaded && width == 0 ==> r.offsetX == offsetX - horizontal && r.offsetY == offsetY
    ensures textureLoaded && width != 0 ==>
              && Abs(r.offsetX) < Abs(width)
              && offsetX - horizontal == IntQuot(offsetX - horizontal, width) * width + r.offsetX
    ensures textureLoaded && width != 0 && (gt == WallMiddle || height == 0) ==> r.offsetY == offsetY - vertical
    ensures textureLoaded && width != 0 && gt != WallMiddle && height != 0 ==>
              && Abs(r.offsetY) < Abs(height)
              && offsetY - vertical == IntQuot(offsetY - vertical, height) * height + r.offsetY
  {
    var x := offsetX - horizontal;
    var y := offsetY - vertical;
    if !textureLoaded then OffsetEdit(x, y, None)
    else if width == 0 then OffsetEdit(x, offsetY, Some("DivideByZeroException"))
    else if gt != WallMiddle && height == 0 then OffsetEdit(IntRem(x, width), y, Some("DivideByZeroException"))
    else OffsetEdit(IntRem(x, width), if gt != WallMiddle then IntRem(y, height) else y, None)
  }

  // ---------------------------------------------------------------------------
  // Grid-snapped texture dragging.

  /** One axis of a grid-snapped drag: the offset change to apply and the
      remembered offset afterwards. */
  datatype SnapStep = SnapStep(delta: int, prev: int)

  /** Applies a whole grid step toward `prev` once the dragged offset is at least
      a grid step away from the remembered one, and then remembers it. */
  function SnapAxis(prev: int, newOffset: int, gridSize: int): (r: SnapStep)
    ensures r.delta == 0 || r.delta == gridSize || r.delta == -gridSize
    ensures gridSize >= 0 ==> r.delta * (prev - newOffset) >= 0
    ensures r.delta == 0 ==> r.prev == prev || gridSize == 0
    ensures r.prev == prev || r.prev == newOffset
    ensures gridSize > 0 ==> Abs(r.prev - newOffset) < gridSize
    ensures gridSize > 0 ==> (r.delta != 0 <==> Abs(prev - newOffset) >= gridSize)
  {
    var d := prev - newOffset;
    if Abs(d) >= gridSize then SnapStep(gridSize * Sign(d), newOffset) else SnapStep(0, prev)
  }

  /** The offsets dragging reaches: the horizontal offset decreases and the
      vertical one increases with the rounded drag distances. */
  function DraggedOffsets(startX: int, startY: int, dragX: real, dragY: real): (r: (int, int))
    ensures startX - r.0 == Round(dragX) && r.1 - startY == Round(dragY)
    ensures AbsReal((startX - r.0) as real - dragX) <= 0.5
    ensures AbsReal((r.1 - startY) as real - dragY) <= 0.5
  {
    (startX - Round(dragX), startY + Round(dragY))
  }

  /** Drag distances exactly halfway between two whole units round to the
      even one: 0.5 moves nothing, and 1.5 and -2.5 both move by two units. */
  lemma DraggedOffsetsTies()
    ensures DraggedOffsets(0, 0, 0.5, 0.5) == (0, 0)
    ensures DraggedOffsets(0, 0, 1.5, -2.5) == (-2, -2)
  {
  }

  /** Both axes of a grid-snapped drag; the change is applied only when one of
      them moved. */
  function GridSnapDrag(startX: int, startY: int, prevX: int, prevY: int, dragX: real, dragY: real, gridSize: int)
    : (r: (SnapStep, SnapStep, bool))
    ensures r.2 <==> r.0.delta != 0 || r.1.delta != 0
    ensures gridSize > 0 ==> Abs(r.0.prev - DraggedOffsets(startX, startY, dragX, dragY).0) < gridSize
    ensures gridSize > 0 ==> Abs(r.1.prev - DraggedOffsets(startX, startY, dragX, dragY).1) < gridSize
  {
    var (nx, ny) := DraggedOffsets(startX, startY, dragX, dragY);
    var sx := SnapAxis(prevX, nx, gridSize);
    var sy := SnapAxis(prevY, ny, gridSize);
    (sx, sy, sx.delta != 0 || sy.delta != 0)
  }

  // ---------------------------------------------------------------------------
  // Scale field names.

  /** The UDMF scale fields of a wall part; only upper, middle and lower walls
      have them, any other part is an error. */
  function ScaleKeys(gt: GeometryType): (r: Result<(string, string), string>)
    ensures r.Success? <==> gt == WallUpper || gt == WallMiddle || gt == WallLower
    ensures r.Success? ==> |r.value.0| > 7 && r.value.0[..7] == "scalex_"
                           && |r.value.1| > 7 && r.value.1[..7] == "scaley_"
                           && r.value.0[7..] == r.value.1[7..]
    ensures r.Failure? ==> r.error == "OnChangeTextureScale(): Got unknown GeometryType: " + GeometryTypeName(gt)
  {
    match gt
    case WallUpper => Success(("scalex_top", "scaley_top"))
    case WallMiddle => Success(("scalex_mid", "scaley_mid"))
    case WallLower => Success(("scalex_bottom", "scaley_bottom"))
    case _ => Failure("OnChangeTextureScale(): Got unknown GeometryType: " + GeometryTypeName(gt))
  }

  /** Different wall parts scale through different fields. */
  lemma ScaleKeysDistinct(a: GeometryType, b: GeometryType)
    requires ScaleKeys(a).Success? && ScaleKeys(b).Success? && a != b
    ensures ScaleKeys(a).value.0 != ScaleKeys(b).value.0
    ensures ScaleKeys(a).value.1 != ScaleKeys(b).value.1
  {
    var ka := ScaleKeys(a).value;
    var kb := ScaleKeys(b).value;
    assert ka.0[7..] != kb.0[7..];
    assert ka.1[7..] != kb.1[7..];
  }

  // ---------------------------------------------------------------------------
  // The sidedef's light value.

  /** A UDMF field value; lookups of the wrong type fall back to the default. */
  datatype UniValue = IntValue(i: int) | BoolValue(b: bool) | OtherValue

  type Fields = map<string, UniValue>

  function GetInt(f: Fields, key: string, default: int): int
  {
    if key in f && f[key].IntValue? then f[key].i else default
  }

  function GetBool(f: Fields, key: string, default: bool): bool
  {
    if key in f && f[key].BoolValue? then f[key].b else default
  }

  /** The per-part light field and its "absolute" companion; other parts read
      the empty field name. */
  function PartLightKeys(gt: GeometryType): (string, string)
  {
    match gt
    case WallUpper => ("light_top", "lightabsolute_top")
    case WallLower => ("light_bottom", "lightabsolute_bottom")
    case WallMiddle => ("light_mid", "lightabsolute_mid")
    case WallMiddle3D => ("light_mid", "lightabsolute_mid")
    case _ => ("", "")
  }

  /** The light value of a wall part and whether it is absolute. */
  datatype LightValue = LightValue(value: int, absolute: bool)

  /** What the light resolution reads besides the sidedef's fields: whether the
      game distinguishes per-part brightness, whether fog affects the sector,
      and the sidedef's "lightfog" flag. */
  datatype LightContext = LightContext(distinctPartBrightness: bool, affectedByFog: bool, lightfog: bool)

  /** Sector fog overrides relative wall light unless the sidedef opts in with
      "lightfog"; a per-part absolute light has precedence over everything else. */
  function GetLightValue(fields: Fields, gt: GeometryType, ctx: LightContext): (r: LightValue)
    ensures var (partstr, partstrabs) := if ctx.distinctPartBrightness then PartLightKeys(gt) else ("", "");
      var partabs := ctx.distinctPartBrightness && GetBool(fields, partstrabs, false);
      var absolute := GetBool(fields, "lightabsolute", false) || partabs;
      && (ctx.affectedByFog && !ctx.lightfog && !absolute ==> r == LightValue(0, false))
      && (!(ctx.affectedByFog && !ctx.lightfog && !absolute) ==> r.absolute == absolute)
      && (!(ctx.affectedByFog && !ctx.lightfog && !absolute) && partabs ==> r.value == GetInt(fields, partstr, 0))
      && (!(ctx.affectedByFog && !ctx.lightfog && !absolute) && !ctx.distinctPartBrightness ==> r.value == GetInt(fields, "light", 0))
  {
    var (partstr, partstrabs) := if ctx.distinctPartBrightness then PartLightKeys(gt) else ("", "");
    var lightglobalabsolute := GetBool(fields, "lightabsolute", false);
    var lightpartabsolute := if ctx.distinctPartBrightness then GetBool(fields, partstrabs, false) else false;
    var lightabsolute := lightglobalabsolute || lightpartabsolute;
    var ignorelight := ctx.affectedByFog && !ctx.lightfog && !lightabsolute;
    if ignorelight then LightValue(0, false)
    else if lightpartabsolute then LightValue(GetInt(fields, partstr, 0), lightabsolute)
    else
      LightValue(GetInt(fields, "light", 0) + (if ctx.distinctPartBrightness then GetInt(fields, partstr, 0) else 0), lightabsolute)
  }

  /** With per-part brightness and no absolute part light, the part's light
      is added to the sidedef's light. */
  lemma PartLightAdds(fields: Fields, gt: GeometryType, ctx: LightContext)
    requires ctx.distinctPartBrightness
    requires !GetBool(fields, PartLightKeys(gt).1, false)
    requires !ctx.affectedByFog || ctx.lightfog || GetBool(fields, "lightabsolute", false)
    ensures GetLightValue(fields, gt, ctx).value == GetInt(fields, "light", 0) + GetInt(fields, PartLightKeys(gt).0, 0)
  {
  }

  /** Raising the sidedef's "light" field by `d` raises a wall part's light by
      `d`, unless fog blanks the light or a per-part absolute light replaces it;
      it never changes whether the light is absolute. */
  lemma LightFieldShift(fields: Fields, gt: GeometryType, ctx: LightContext, d: int)
    ensures var r := GetLightValue(fields, gt, ctx);
      var r' := GetLightValue(fields["light" := IntValue(GetInt(fields, "light", 0) + d)], gt, ctx);
      var partabs := ctx.distinctPartBrightness && GetBool(fields, PartLightKeys(gt).1, false);
      && r'.absolute == r.absolute
      && (!partabs && ctx.affectedByFog && !ctx.lightfog && !GetBool(fields, "lightabsolute", false)
          ==> r' == r == LightValue(0, false))
      && (partabs ==> r' == r)
      && (!partabs && !(ctx.affectedByFog && !ctx.lightfog && !GetBool(fields, "lightabsolute", false))
          ==> r'.value == r.value + d)
  {
  }
}
